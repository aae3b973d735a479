/**
 * The review session of src/app/page.tsx as an object: the state declared
 * with `useState` becomes the fields of `ReviewSession`, and each event
 * handler a method that updates them. Effects the handlers wait for (the
 * file reads, the HTTP request, random ids, the clock) arrive as parameters.
 */
module Session {
  import opened Wrappers
  import opened Text
  import opened Review

  /** How a batch of `FileReader` reads settled under `Promise.all`. */
  datatype BatchRead =
    | AllRead(uploaded: seq<UploadedFile>)  // every file was read, in selection order
    | ReadFailed(fileName: string)          // the first read to fail, by file name

  /**
   * What a run's closure holds across its `await`: the values of `apiKey`,
   * `reviewFocus`, `aggregateCode`, `files.length` and `editorCode` as they
   * were when the handler was called. The request is built from the first
   * three and the history summary from the last two.
   */
  datatype PendingRun = PendingRun(
    apiKey: string, reviewFocus: string, aggregate: string, fileCount: nat, editorCode: string)

  class ReviewSession {
    var inputMode: InputMode
    var files: seq<UploadedFile>
    var selectedFileId: Option<string>
    var editorCode: string
    var apiKey: string
    var reviewFocus: string
    var isLoading: bool
    var error: Option<string>
    var reviewOutput: string
    var history: seq<ReviewEntry>

    /** The selection refers to a listed file or to nothing, and file ids are unique. */
    ghost predicate Valid()
      reads this`files, this`selectedFileId
    {
      SelectionValid(files, selectedFileId) && DistinctIds(files)
    }

    /** `aggregateCode` of the current state. */
    function Aggregate(): string
      reads this`inputMode, this`files, this`editorCode
    {
      AggregateCode(inputMode, files, editorCode)
    }

    /** `selectedFile`: with a valid selection, a file is shown exactly when one is selected. */
    function SelectedFile(): (r: Option<UploadedFile>)
      reads this`files, this`selectedFileId
      ensures r.Some? ==> r.value in files && selectedFileId == Some(r.value.id)
      ensures Valid() ==> (r.Some? <==> selectedFileId.Some?)
    {
      FindFile(files, selectedFileId)
    }

    /** The initial state of the page. */
    constructor ()
      ensures Valid()
      ensures inputMode == FileMode && files == [] && selectedFileId == None && editorCode == ""
      ensures apiKey == "" && reviewFocus == DefaultFocus
      ensures !isLoading && error == None && reviewOutput == "" && history == []
    {
      inputMode := FileMode;
      files := [];
      selectedFileId := None;
      editorCode := "";
      apiKey := "";
      reviewFocus := DefaultFocus;
      isLoading := false;
      error := None;
      reviewOutput := "";
      history := [];
    }

    /** The key field's `onChange`. */
    method SetApiKey(key: string)
      modifies this`apiKey
      ensures apiKey == key
    {
      apiKey := key;
    }

    /** The focus field's `onChange`. */
    method SetReviewFocus(focus: string)
      modifies this`reviewFocus
      ensures reviewFocus == focus
    {
      reviewFocus := focus;
    }

    /** The manual editor's `onChange`. */
    method SetEditorCode(code: string)
      modifies this`editorCode
      ensures editorCode == code
    {
      editorCode := code;
    }

    /** Clicking a file's chip; chips exist only for listed files. */
    method SelectFile(id: string)
      requires Valid() && HasFile(files, id)
      modifies this`selectedFileId
      ensures Valid() && selectedFileId == Some(id)
    {
      selectedFileId := Some(id);
    }

    /**
     * The commit step of `handleFileUpload`. An empty selection returns
     * before anything happens. A fully read batch is appended after the
     * files already listed, selects its first file when nothing is selected,
     * and clears the error. A failed batch commits no file and reports the
     * file that failed. Fresh ids are distinct from each other and from the
     * listed ones.
     */
    method Upload(batch: BatchRead)
      requires Valid()
      requires batch.AllRead? ==> DistinctIds(files + batch.uploaded)
      modifies this`files, this`selectedFileId, this`error
      ensures Valid()
      ensures batch.AllRead? && batch.uploaded == [] ==>
                files == old(files) && selectedFileId == old(selectedFileId) && error == old(error)
      ensures batch.AllRead? && batch.uploaded != [] ==>
                && files == old(files) + batch.uploaded
                && selectedFileId == (if NothingSelected(old(selectedFileId))
                                      then Some(batch.uploaded[0].id) else old(selectedFileId))
                && error == None
      ensures batch.ReadFailed? ==>
                && files == old(files) && selectedFileId == old(selectedFileId)
                && error == Some(ReadFailureMessage(batch.fileName))
    {
      match batch
      case AllRead(uploaded) =>
        if |uploaded| == 0 {
          return;
        }
        if selectedFileId.Some? {
          HasFileAppend(files, uploaded, selectedFileId.value);
        }
        HasFileAppend(files, uploaded, uploaded[0].id);
        files := files + uploaded;
        if NothingSelected(selectedFileId) {
          selectedFileId := Some(uploaded[0].id);
        }
        error := None;
      case ReadFailed(fileName) =>
        error := Some(ReadFailureMessage(fileName));
    }

    /** `removeFile`: drops every file with that id and clears the selection if it was that id. */
    method RemoveFile(id: string)
      requires Valid()
      modifies this`files, this`selectedFileId
      ensures Valid()
      ensures files == WithoutId(old(files), id)
      ensures |files| == if HasFile(old(files), id) then |old(files)| - 1 else |old(files)|
      ensures selectedFileId == if old(selectedFileId) == Some(id) then None else old(selectedFileId)
    {
      RemovalKeepsSelection(files, selectedFileId, id);
      WithoutIdDistinct(files, id);
      files := WithoutId(files, id);
      if selectedFileId == Some(id) {
        selectedFileId := None;
      }
    }

    /**
     * The two tab buttons. Choosing file input clears the manual buffer;
     * choosing manual input clears the file list and the selection.
     */
    method SwitchMode(mode: InputMode)
      requires Valid()
      modifies this`inputMode, this`files, this`selectedFileId, this`editorCode
      ensures Valid() && inputMode == mode
      ensures mode == FileMode ==>
                editorCode == "" && files == old(files) && selectedFileId == old(selectedFileId)
      ensures mode == ManualMode ==>
                files == [] && selectedFileId == None && editorCode == old(editorCode)
    {
      match mode
      case FileMode =>
        inputMode := FileMode;
        editorCode := "";
      case ManualMode =>
        inputMode := ManualMode;
        files := [];
        selectedFileId := None;
    }

    /**
     * `handleRunReview` up to its `await`. The key is checked first and the
     * content second; a failed check sets the error and the run stops there.
     * Otherwise the run starts loading, clears the error and keeps the values
     * it read. There is no check of `isLoading` here.
     */
    method BeginReview() returns (run: Option<PendingRun>)
      requires Valid()
      modifies this`isLoading, this`error
      ensures Valid()
      ensures CheckRun(old(apiKey), old(Aggregate())) != Ready ==>
                run == None && error == Some(CheckMessage(CheckRun(old(apiKey), old(Aggregate()))))
                && isLoading == old(isLoading)
      ensures CheckRun(old(apiKey), old(Aggregate())) == Ready ==>
                && run == Some(PendingRun(old(apiKey), old(reviewFocus), old(Aggregate()),
                                          old(|files|), old(editorCode)))
                && isLoading && error == None
    {
      var aggregate := Aggregate();
      var check := CheckRun(apiKey, aggregate);
      if check != Ready {
        error := Some(CheckMessage(check));
        return None;
      }
      isLoading := true;
      error := None;
      run := Some(PendingRun(apiKey, reviewFocus, aggregate, |files|, editorCode));
    }

    /**
     * `handleRunReview` after its `await`. A completed request shows its text
     * and prepends exactly one entry, summarising the input the run read, to
     * the history; any failure sets the error and leaves the output and the
     * history alone. Loading ends either way.
     */
    method FinishReview(run: PendingRun, outcome: Outcome, entryId: string, timestamp: string)
      modifies this`isLoading, this`error, this`reviewOutput, this`history
      ensures !isLoading
      ensures outcome.Completed? ==>
                && reviewOutput == ReviewText(outcome.content)
                && history == [ReviewEntry(entryId, timestamp, Summary(run.fileCount, run.editorCode),
                                           reviewOutput)] + old(history)
                && error == old(error)
      ensures !outcome.Completed? ==>
                && error == Some(FailureMessage(outcome))
                && reviewOutput == old(reviewOutput) && history == old(history)
    {
      isLoading := false;
      match outcome
      case Completed(content) =>
        var text := ReviewText(content);
        reviewOutput := text;
        history := [ReviewEntry(entryId, timestamp, Summary(run.fileCount, run.editorCode), text)] + history;
      case _ =>
        error := Some(FailureMessage(outcome));
    }

    /**
     * One whole run, started from the button, which is disabled while
     * loading. Validation failures build no request and touch neither the
     * output nor the history. Otherwise the request carries the system
     * prompt, the user prompt and the trimmed key, and the outcome decides
     * the rest.
     */
    method RunReview(outcome: Outcome, entryId: string, timestamp: string) returns (request: Option<Request>)
      requires Valid() && !isLoading
      modifies this`isLoading, this`error, this`reviewOutput, this`history
      ensures Valid() && !isLoading
      ensures CheckRun(old(apiKey), old(Aggregate())) != Ready ==>
                && request == None && error == Some(CheckMessage(CheckRun(old(apiKey), old(Aggregate()))))
                && reviewOutput == old(reviewOutput) && history == old(history)
      ensures CheckRun(old(apiKey), old(Aggregate())) == Ready ==>
                && request == Some(BuildRequest(old(apiKey), old(reviewFocus), old(Aggregate())))
                && request.value.systemMessage == SystemPrompt
                && request.value.userMessage == UserPrompt(old(reviewFocus), old(Aggregate()))
                && request.value.authorization == "Bearer " + Trim(old(apiKey))
      ensures CheckRun(old(apiKey), old(Aggregate())) == Ready && outcome.Completed? ==>
                && reviewOutput == ReviewText(outcome.content)
                && history == [ReviewEntry(entryId, timestamp, Summary(old(|files|), old(editorCode)), reviewOutput)]
                              + old(history)
                && error == None
      ensures CheckRun(old(apiKey), old(Aggregate())) == Ready && !outcome.Completed? ==>
                && error == Some(FailureMessage(outcome))
                && reviewOutput == old(reviewOutput) && history == old(history)
    {
      var run := BeginReview();
      match run
      case None =>
        request := None;
      case Some(pending) =>
        request := Some(BuildRequest(pending.apiKey, pending.reviewFocus, pending.aggregate));
        FinishReview(pending, outcome, entryId, timestamp);
    }

    /** A history entry's "보기" button: shows that entry's result again. */
    method SelectHistory(i: nat)
      requires i < |history|
      modifies this`reviewOutput
      ensures reviewOutput == history[i].result
    {
      reviewOutput := history[i].result;
    }

    /** The error banner's close button. */
    method DismissError()
      modifies this`error
      ensures error == None
    {
      error := None;
    }
  }

  /** Switching from file to manual input and back leaves no file and no buffer behind. */
  method ModeSwitchScenario(batch: seq<UploadedFile>, code: string)
    requires DistinctIds(batch)
  {
    var s := new ReviewSession();
    s.Upload(AllRead(batch));
    s.SwitchMode(ManualMode);
    assert s.files == [];
    s.SetEditorCode(code);
    s.SwitchMode(FileMode);
    assert s.files == [] && s.editorCode == "" && s.selectedFileId == None;
  }

  /** With an empty key nothing is sent, whatever the provider would have answered. */
  method MissingKeyScenario(code: string, outcome: Outcome)
  {
    var s := new ReviewSession();
    s.SwitchMode(ManualMode);
    s.SetEditorCode(code);
    var request := s.RunReview(outcome, "entry", "2024-01-01T00:00:00.000Z");
    assert request == None && s.error == Some(MissingKeyMessage) && s.history == [];
  }

  /**
   * Nothing in the handler itself refuses a second run while one is in
   * flight: two runs begun back to back both send a request and both
   * complete into the history. Only the disabled button prevents this.
   */
  method OverlappingRunsScenario(key: string, code: string)
    requires !IsBlank(key) && !IsBlank(code)
  {
    var s := new ReviewSession();
    s.SetApiKey(key);
    s.SwitchMode(ManualMode);
    s.SetEditorCode(code);
    AggregateBlankIff(ManualMode, [], code);
    var first := s.BeginReview();
    var second := s.BeginReview();
    assert first.Some? && second.Some? && s.history == [];
    s.FinishReview(first.value, Completed(Some("a")), "1", "t1");
    s.FinishReview(second.value, Completed(Some("b")), "2", "t2");
    assert |s.history| == 2 && s.history[0].result == "b" && s.history[1].result == "a";
  }
}
