/** The optional value used for the session's nullable fields (`string | null`). */
module Wrappers {
  datatype Option<+T> = None | Some(value: T)
}
