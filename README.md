# Review session of the code-review page, in Dafny

`src/app/page.tsx` is a single-page code-review client. The user either
uploads files or pastes code, enters an OpenAI API key and a review focus,
and asks for a review. The page combines the input into one text (the
*aggregate*), wraps it in a fixed Korean prompt and sends it to the
chat-completion endpoint. It then shows the answer and prepends it to a
history of past reviews.

This project models that session and proves what it does.

- `wrappers.dfy` holds the `Option` type.
- `text.dfy` (module `Text`) models the JavaScript string operations the page
  relies on:
  - `String.prototype.trim`, with the ECMAScript WhiteSpace and LineTerminator
    characters;
  - `Array.prototype.join`;
  - the decimal rendering of a number inside a template literal;
  - `String.length`, which counts UTF-16 code units.
- `review.dfy` (module `Review`) holds the pure part of the page:
  - the two record types and the fixed texts;
  - `aggregateCode`, the user prompt and the request;
  - the two checks made before a run;
  - the messages a run's outcome turns into;
  - the history summary;
  - the file-list filter and lookup.
- `session.dfy` (module `Session`) turns the state declared with `useState`
  into the fields of the class `ReviewSession`. Each event handler becomes a
  method that updates those fields:
  - upload, remove, mode switch, chip and history selection, and error
    dismissal;
  - `handleRunReview`, split at its `await` into `BeginReview` (validation,
    loading on, error cleared) and `FinishReview` (the outcome applied,
    loading off), and composed by `RunReview`.

Effects are parameters:

- The batch of `FileReader` results under `Promise.all` is a `BatchRead`:
  all files read, or the name of the file that failed.
- The `fetch` call and its JSON parsing are an `Outcome`: `Completed` with
  the optional message content, `HttpFailure` with the status and response
  text, `Thrown` with an `Error`'s message, or `NonErrorThrown`.
- `crypto.randomUUID()` and `new Date().toISOString()` are an id and a
  timestamp passed to the methods. Uploaded ids are required to be distinct,
  which is what random UUIDs give.

The session is valid (`ReviewSession.Valid`) when the file ids are distinct
and the selection is either empty or names a listed file. Every handler
preserves this.

Three scenario methods show how the handlers combine:

- `ModeSwitchScenario`: switching to manual input and back leaves no file,
  no selection and no buffer.
- `MissingKeyScenario`: with an empty key, no request is built whatever the
  provider would have answered.
- `OverlappingRunsScenario`: two runs begun back to back both go through and
  both land in the history.

### Behaviour of the code worth knowing

- **A second run while one is in flight is not refused by the handler.**
  `handleRunReview` never looks at `isLoading`. The only guard is the
  disabled button (`src/app/page.tsx:344`).
  - `BeginReview` therefore has no precondition on `isLoading`.
  - `RunReview`, the whole click, requires `!isLoading` because the button
    cannot be pressed while loading.
  - `OverlappingRunsScenario` shows that two overlapping runs both append to
    the history.
- **A successful run does not clear the error itself.** Within a run, the
  error is cleared only when the run starts (line 121). `FinishReview` therefore leaves
  `error` as it was on success. After a single `RunReview` the error is
  still `None`. With overlapping runs, an error left by the first one
  survives a later success.
- **In the upload handler, an empty selection id counts as no
  selection.** The upload handler tests `!selectedFileId` (line 91), which
  is also true for the empty string, so `NothingSelected` treats `""` like
  `null`. `files.find` (line 62) and `removeFile` (line 104) compare with
  `===`, so there `""` still matches a file whose id is `""`, and
  `FindFile` and `RemoveFile` do the same.
- **The manual-input length counts UTF-16 code units.** The summary uses
  `String.length`, which counts UTF-16 code units, not characters
  (`Utf16Length`).

## Model

| member | source | states |
|---|---|---|
| Text.TrimStartSpec | src/app/page.tsx:52 | the leading part `trim` removes is exactly the maximal run of leading whitespace; what is left is the rest of the string and starts with a visible character |
| Text.IsWhitespace | src/app/page.tsx:52 | the characters `trim` removes: the ECMAScript WhiteSpace set (tab, vertical tab, form feed, space, no-break space, byte-order mark and the space separators) and the LineTerminator set (line feed, carriage return, line and paragraph separators) |
| Text.TrimEndSpec | src/app/page.tsx:52 | the trailing part removed is all whitespace; what is left is a prefix of the string ending in a visible character |
| Text.TrimSpec | src/app/page.tsx:52 | `s.trim()` is the infix of `s` between its leading and trailing whitespace; everything cut off is whitespace, and a non-empty result starts and ends with a visible character |
| Text.Trim | src/app/page.tsx:52 | `String.prototype.trim`: the trailing whitespace cut from what is left after the leading whitespace is cut; its properties are those of `Text.TrimSpec` |
| Text.IsBlank | src/app/page.tsx:110 | the JavaScript falsiness of `s.trim()` used at lines 56, 110 and 115: the trim is the empty string; `Text.BlankIffAllWhitespace` gives its meaning |
| Text.BlankIffAllWhitespace | src/app/page.tsx:110 | `!s.trim()` holds exactly when every character of `s` is whitespace |
| Text.NotBlankWhenFirstVisible | src/app/page.tsx:115 | a text that starts with a visible character passes the emptiness check |
| Text.TrimVisibleEnds | src/app/page.tsx:52 | trimming a text with visible first and last characters returns it unchanged |
| Text.TrimIdempotent | src/app/page.tsx:115 | trimming an already trimmed text, such as the aggregate built from trimmed parts, changes nothing |
| Text.JoinCons | src/app/page.tsx:54 | `[x, ...rest].join(sep)` is `x`, followed by `sep` and the join of `rest` when `rest` is non-empty |
| Text.JoinAppend | src/app/page.tsx:54 | joining two non-empty arrays end to end is joining each and putting one separator between |
| Text.Join | src/app/page.tsx:54 | `Array.prototype.join`: nothing for no part, the part itself for one, otherwise the parts with the separator between each neighbouring pair; its properties are those of `Text.JoinCons` and `Text.JoinAppend` |
| Text.NatToString | src/app/page.tsx:150 | the decimal rendering of a number is non-empty, all digits, and starts with `0` only for zero |
| Text.DecimalRoundTrip | src/app/page.tsx:150 | reading the decimal rendering back gives the number |
| Text.NatToStringInjective | src/app/page.tsx:164 | different numbers render differently |
| Text.LeadingDigitsOf | src/app/page.tsx:150 | a run of digits followed by a non-digit, or by nothing, is read back as exactly that run |
| Text.Utf16Length | src/app/page.tsx:164 | `editorCode.length` is at least the character count and at most twice it, and equals it when every character lies in the Basic Multilingual Plane; the exact count is given by `Text.Utf16LengthChar` and `Text.Utf16LengthAppend` |
| Text.Utf16LengthChar | src/app/page.tsx:164 | a character counts one UTF-16 code unit below U+10000 and two above |
| Text.Utf16LengthAppend | src/app/page.tsx:164 | the UTF-16 length of a concatenation is the sum of its parts' lengths; with `Text.Utf16LengthChar` this fixes `editorCode.length` for every string |
| Review.FileBody | src/app/page.tsx:52 | a file's body is never empty and is its own trim; it is the trimmed content when the content is not blank and `// (빈 파일)` when it is |
| Review.FileBlock | src/app/page.tsx:52 | one file's block: `// 파일: `, the file name, a line break, then the file's body |
| Review.FileBlocks | src/app/page.tsx:49-53 | exactly one block per file, block `i` being the block of file `i` |
| Review.AggregateCode | src/app/page.tsx:47-60 | in file mode the aggregate is empty exactly when there are no files; in manual mode it is empty exactly when the buffer is blank, and is otherwise the manual marker followed by the trimmed buffer |
| Review.AggregateCons | src/app/page.tsx:48-54 | the file aggregate is the first file's block, then, if more files follow, a blank line and the aggregate of the rest |
| Review.FileBlocksAppend | src/app/page.tsx:49-53 | the blocks of two file lists end to end are the blocks of each, in order |
| Review.AggregateAppend | src/app/page.tsx:48-54 | the aggregate of two non-empty uploads is the first's aggregate, a blank line, and the second's: batch boundaries leave no trace |
| Review.ManualIgnoresFiles | src/app/page.tsx:55-59 | in manual mode the aggregate does not depend on the file list |
| Review.AggregateBlankIff | src/app/page.tsx:47-60 | the aggregate is blank exactly when there is no file in file mode, or a blank buffer in manual mode; even an empty file makes it non-blank |
| Review.TwoFileBlocks | src/app/page.tsx:48-54 | two files give their two blocks in upload order, one blank line apart |
| Review.ExampleTwoFiles | src/app/page.tsx:48-54 | a concrete two-file upload gives both blocks, in order, separated by `\n\n` |
| Review.ExampleEmptyFile | src/app/page.tsx:52 | an empty file's block is `// 파일: b.py` and then `// (빈 파일)` |
| Review.ExampleVisibleContent | src/app/page.tsx:52 | a file with content `x=1` gives the block `// 파일: a.py` and then `x=1` |
| Review.UserPromptIsJoin | src/app/page.tsx:123-128 | the user message is the focus line, the instruction, the bundle heading and the aggregate, in that order, joined with `\n\n` |
| Review.UserPromptSections | src/app/page.tsx:123-128 | the message begins with `리뷰 포커스: ` and the focus and ends with the aggregate verbatim; its length is the sum of the parts |
| Review.UserPrompt | src/app/page.tsx:123-128 | the user message: `리뷰 포커스: ` with the focus, the fixed instruction, `코드 묶음:` and the aggregate, each separated by a blank line; its join form is `Review.UserPromptIsJoin` |
| Review.BuildRequest | src/app/page.tsx:131-145 | the request: the chat-completion endpoint, model `gpt-4o-mini`, temperature 0.2, `Bearer ` with the trimmed key, the system prompt as system message and the user prompt as user message |
| Review.CheckRun | src/app/page.tsx:110-118 | a blank key is reported whatever the content is; the empty-input report needs a non-blank key and a blank aggregate; a run is ready exactly when both are non-blank |
| Review.CheckMessage | src/app/page.tsx:110-118 | the error a failed check leaves: `리뷰를 요청하기 전에 OpenAI API 키를 입력해주세요.` for a missing key (line 111), `리뷰를 요청하기 전에 최소 하나의 파일을 업로드하거나 코드를 붙여넣어주세요.` for empty input (line 116) |
| Review.HttpFailureMessage | src/app/page.tsx:147-152 | the message for a failed response starts with `OpenAI request failed (` and ends with the response text verbatim |
| Review.ReviewText | src/app/page.tsx:154-157 | the text of a completed request: the message content when present, `모델로부터 응답을 받지 못했습니다.` when absent |
| Review.FailureMessage | src/app/page.tsx:169-174 | the error a failed run shows: the HTTP failure message for a non-2xx status, a thrown `Error`'s own message, or `리뷰 요청 중 예기치 않은 오류가 발생했습니다.` for anything else thrown |
| Review.HttpFailureRoundTrip | src/app/page.tsx:147-152 | both the status and the response text can be read back, unchanged, from that message |
| Review.ExampleUnauthorized | src/app/page.tsx:149-151 | status 401 with text `invalid_api_key` gives `OpenAI request failed (401): invalid_api_key` |
| Review.ReadFailureMessage | src/app/page.tsx:83 | the upload error for a failed read begins with the name of the file that failed |
| Review.SummaryRoundTrip | src/app/page.tsx:164 | a history summary records both the file count and the JavaScript length of the buffer, and both can be read back |
| Review.Summary | src/app/page.tsx:164 | the history summary `파일 <file count>개, 수동 입력 <buffer length>자`, the buffer length in UTF-16 code units |
| Review.HasFileAppend | src/app/page.tsx:90 | a file id is in an appended list exactly when it is in one of the two parts |
| Review.FindFile | src/app/page.tsx:62 | a found file is the first listed file with the selected id; nothing is found only when nothing is selected or no listed file has that id |
| Review.NothingSelected | src/app/page.tsx:91 | `!selectedFileId`: no selection, or the empty id |
| Review.WithoutId | src/app/page.tsx:103 | the filtered list is no longer than the original and has no file with the removed id |
| Review.WithoutIdMember | src/app/page.tsx:103 | the filter keeps a file exactly when it was listed and has another id |
| Review.WithoutIdAbsent | src/app/page.tsx:103 | removing an id no file has leaves the list unchanged |
| Review.WithoutIdAppend | src/app/page.tsx:103 | the filter distributes over concatenation, so the files it keeps stay in order |
| Review.WithoutIdDistinct | src/app/page.tsx:103 | with distinct ids, the filter drops exactly one file when the id is present and none otherwise, and keeps the ids distinct |
| Review.RemovalKeepsSelection | src/app/page.tsx:102-107 | after a removal that clears a selection equal to the removed id, the selection still names a listed file or nothing |
| Session.ReviewSession.SelectedFile | src/app/page.tsx:62 | in a valid session a selected file is shown exactly when something is selected, and it is the listed file with that id |
| Session.ReviewSession.Aggregate | src/app/page.tsx:47-60 | the memoised `aggregateCode` of the current mode, files and buffer, which `BeginReview` and `RunReview` read |
| Session.ReviewSession.constructor | src/app/page.tsx:34-45 | the initial state: file mode, no files, no selection, empty buffer and key, the default focus, not loading, no error, no output, empty history |
| Session.ReviewSession.SetApiKey | src/app/page.tsx:211 | the key field now holds the typed value |
| Session.ReviewSession.SetReviewFocus | src/app/page.tsx:217 | the focus field now holds the typed value |
| Session.ReviewSession.SetEditorCode | src/app/page.tsx:333 | the manual buffer now holds the typed value |
| Session.ReviewSession.SelectFile | src/app/page.tsx:288 | clicking a listed file's chip selects it and keeps the session valid |
| Session.ReviewSession.Upload | src/app/page.tsx:88-99 | an empty selection changes nothing; a fully read batch is appended after the listed files, selects its first file only when nothing was selected, and clears the error; a failed batch commits no file and reports the file that failed; the session stays valid |
| Session.ReviewSession.RemoveFile | src/app/page.tsx:102-107 | the list becomes the filtered list, one file shorter when the id was listed; the selection is cleared exactly when it was that id; the session stays valid |
| Session.ReviewSession.SwitchMode | src/app/page.tsx:225-241 | choosing file input empties the buffer and keeps the files; choosing manual input empties the files and the selection and keeps the buffer; the session stays valid |
| Session.ReviewSession.BeginReview | src/app/page.tsx:109-121 | a failed check (key first, content second) sets its message and starts nothing, leaving loading as it was; otherwise loading starts, the error is cleared, and the run keeps the key, focus, aggregate, file count and buffer it read; nothing refuses a run while one is loading |
| Session.ReviewSession.FinishReview | src/app/page.tsx:147-177 | a completed request shows the content (or the fallback text when it is absent) and prepends exactly one entry, with the summary of what the run read, to an otherwise unchanged history; any failure sets the error message for its kind and leaves the output and history alone; loading ends either way |
| Session.ReviewSession.RunReview | src/app/page.tsx:109-178 | a failed check builds no request and changes neither output nor history; otherwise the request carries the system prompt, the user prompt of the focus and aggregate, and `Bearer` with the trimmed key; a completed run prepends one entry and leaves no error; a failed run sets its error and keeps output and history; loading is off afterwards |
| Session.ReviewSession.SelectHistory | src/app/page.tsx:472 | the output shows the chosen entry's result; the history itself is not changed |
| Session.ReviewSession.DismissError | src/app/page.tsx:517 | the error is cleared |

## Left out

- All JSX, styling and Markdown rendering: these are presentation only.
- `readableBytes`: it uses floating-point `Math.log`, `Math.pow` and `toFixed`.
- The `fetch` call, the HTTP exchange (including `method: "POST"`, the
  `Content-Type: application/json` header and the system-then-user order of
  `messages`, which `Request` does not record), JSON encoding of the request body and
  `response.json()` parsing. These are network I/O, replaced by the `Outcome`
  value. A response that fails to parse becomes `Thrown` with the parser's
  message. The temperature is kept as the value `0.2`, not as serialized
  text.
- The asynchronous `FileReader` reads and the `Promise.all` fan-out. Only the
  commit of the settled batch is modelled. Resetting the input element's
  value in `finally` is presentation.
- The `"파일 업로드에 실패했습니다."` fallback of the upload handler. Every
  read failure rejects with an `Error`, so that branch cannot be reached.
- Upload: does not model the stale `selectedFileId` captured when the
  handler started. The commit reads the selection current at commit time.
  The two differ only when the selection changes while the files are being
  read.
- `crypto.randomUUID` and `Date`: nondeterministic, so the id and timestamp
  are parameters.
- The `useMemo` cache: `aggregateCode` is modelled as a function of the
  state.
- `src/app/layout.tsx` (page metadata and fonts) and `next.config.ts` (empty
  framework configuration) are not part of this model.
- Strings are sequences of Unicode scalar values, so a lone UTF-16
  surrogate, which a JavaScript string can hold, cannot appear in any text
  of this model.
- `Completed` carries the message content as an optional string. A
  `message.content` of another JSON type, which the code would pass
  unchanged to `setReviewOutput`, is not represented.
