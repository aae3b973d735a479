/**
 * The pure part of the review session in src/app/page.tsx: the entities,
 * the fixed texts, the reviewable aggregate of the current input, the user
 * prompt, the request sent to the chat-completion endpoint, the validation
 * done before a run, and the texts a run's outcome turns into.
 */
module Review {
  import opened Wrappers
  import opened Text

  datatype InputMode = FileMode | ManualMode

  /** One uploaded file; `id` comes from `crypto.randomUUID()`. */
  datatype UploadedFile = UploadedFile(id: string, name: string, size: nat, content: string)

  /** One past review; `timestamp` is an ISO-8601 string supplied by the caller. */
  datatype ReviewEntry = ReviewEntry(id: string, timestamp: string, summary: string, result: string)

  const SystemPrompt: string :=
    "당신은 꼼꼼한 시니어 엔지니어입니다. 구조화되고 우선순위가 정해진 코드 리뷰 피드백을 한국어로 제공하세요. 각 발견 사항에 대해 실행 가능한 수정 사항, 추가할 테스트, 그리고 보안 또는 성능 문제를 강조하세요."
  const DefaultFocus: string := "버그, 가독성, 유지보수성, 성능, 테스트"

  const FileMarker: string := "// 파일: "
  const EmptyFilePlaceholder: string := "// (빈 파일)"
  const ManualMarker: string := "// 수동 입력 코드\n"
  const Separator: string := "\n\n"

  const FocusPrefix: string := "리뷰 포커스: "
  const ReviewInstruction: string :=
    "각 발견 사항에 대해 심각도, 근본 원인, 구체적인 수정 사항을 제공해주세요. 모든 응답은 한국어로 작성해주세요."
  const BundleHeading: string := "코드 묶음:"

  const Endpoint: string := "https://api.openai.com/v1/chat/completions"
  const ModelName: string := "gpt-4o-mini"
  const Temperature: real := 0.2

  const MissingKeyMessage: string := "리뷰를 요청하기 전에 OpenAI API 키를 입력해주세요."
  const EmptyInputMessage: string := "리뷰를 요청하기 전에 최소 하나의 파일을 업로드하거나 코드를 붙여넣어주세요."
  const NoContentFallback: string := "모델로부터 응답을 받지 못했습니다."
  const HttpFailurePrefix: string := "OpenAI request failed ("
  const HttpFailureInfix: string := "): "
  const UnexpectedFailureMessage: string := "리뷰 요청 중 예기치 않은 오류가 발생했습니다."
  const ReadFailureSuffix: string := " 파일 읽기에 실패했습니다."

  // ---------------------------------------------------------------------
  // The reviewable aggregate

  /** What a file contributes below its marker line: its trimmed content, or the placeholder. */
  function FileBody(content: string): (r: string)
    ensures r != [] && Trim(r) == r
    ensures !IsBlank(content) ==> r == Trim(content)
    ensures IsBlank(content) ==> r == EmptyFilePlaceholder
  {
    var t := Trim(content);
    TrimIdempotent(content);
    if t == [] then
      var p := EmptyFilePlaceholder;
      assert p[0] == '/' && p[|p| - 1] == ')';
      TrimVisibleEnds(p);
      p
    else t
  }

  /** `// 파일: <name>` on one line, then the file's body. */
  function FileBlock(f: UploadedFile): string {
    FileMarker + f.name + "\n" + FileBody(f.content)
  }

  /** `files.map(...)`: one block per file, in list order. */
  function FileBlocks(files: seq<UploadedFile>): (r: seq<string>)
    ensures |r| == |files|
    ensures forall i :: 0 <= i < |files| ==> r[i] == FileBlock(files[i])
  {
    if files == [] then [] else [FileBlock(files[0])] + FileBlocks(files[1..])
  }

  /** `aggregateCode`: the single text a run reviews. */
  function AggregateCode(mode: InputMode, files: seq<UploadedFile>, editorCode: string): (r: string)
    ensures mode == FileMode ==> (r == [] <==> files == [])
    ensures mode == ManualMode ==> (r == [] <==> IsBlank(editorCode))
    ensures mode == ManualMode && !IsBlank(editorCode) ==> r == ManualMarker + Trim(editorCode)
  {
    match mode
    case FileMode =>
      var r := Join(FileBlocks(files), Separator);
      assert files != [] ==> r != [] by {
        if files != [] { AggregateCons(files[0], files[1..]); assert files == [files[0]] + files[1..]; }
      }
      r
    case ManualMode =>
      if IsBlank(editorCode) then "" else ManualMarker + Trim(editorCode)
  }

  /**
   * The file-mode aggregate read file by file: the first file's block, then,
   * if more files follow, one blank line and the aggregate of the rest.
   */
  lemma AggregateCons(f: UploadedFile, rest: seq<UploadedFile>)
    ensures Join(FileBlocks([f] + rest), Separator) ==
            FileBlock(f) + (if rest == [] then "" else Separator + Join(FileBlocks(rest), Separator))
  {
    assert ([f] + rest)[1..] == rest;
    assert FileBlocks([f] + rest) == [FileBlock(f)] + FileBlocks(rest);
    JoinCons(FileBlock(f), FileBlocks(rest), Separator);
  }

  /**
   * Batch boundaries leave no trace: the aggregate of the files of two
   * uploads is the aggregate of the first, a blank line, and that of the second.
   */
  lemma AggregateAppend(a: seq<UploadedFile>, b: seq<UploadedFile>, editorCode: string)
    requires a != [] && b != []
    ensures AggregateCode(FileMode, a + b, editorCode) ==
            AggregateCode(FileMode, a, editorCode) + Separator + AggregateCode(FileMode, b, editorCode)
  {
    FileBlocksAppend(a, b);
    JoinAppend(FileBlocks(a), FileBlocks(b), Separator);
  }

  lemma {:induction false} FileBlocksAppend(a: seq<UploadedFile>, b: seq<UploadedFile>)
    ensures FileBlocks(a + b) == FileBlocks(a) + FileBlocks(b)
  {
    if a != [] {
      assert (a + b)[1..] == a[1..] + b;
      FileBlocksAppend(a[1..], b);
    }
  }

  /** In manual mode the uploaded files play no part. */
  lemma ManualIgnoresFiles(files: seq<UploadedFile>, editorCode: string)
    ensures AggregateCode(ManualMode, files, editorCode) == AggregateCode(ManualMode, [], editorCode)
  {
  }

  /**
   * The aggregate is blank exactly when there is nothing to review: no file
   * in file mode, a blank buffer in manual mode. Every file counts, even an
   * empty one, because its marker line is never blank.
   */
  lemma AggregateBlankIff(mode: InputMode, files: seq<UploadedFile>, editorCode: string)
    ensures IsBlank(AggregateCode(mode, files, editorCode)) <==>
            (mode == FileMode && files == []) || (mode == ManualMode && IsBlank(editorCode))
  {
    var r := AggregateCode(mode, files, editorCode);
    if mode == FileMode && files != [] {
      AggregateCons(files[0], files[1..]);
      assert files == [files[0]] + files[1..];
      assert r[0] == '/';
      NotBlankWhenFirstVisible(r);
    } else if mode == ManualMode && !IsBlank(editorCode) {
      assert r[0] == '/';
      NotBlankWhenFirstVisible(r);
    }
  }

  // ---------------------------------------------------------------------
  // The prompt and the request

  /** The user message: focus line, instruction, heading and aggregate, separated by blank lines. */
  function UserPrompt(focus: string, aggregate: string): string {
    FocusPrefix + focus + Separator + ReviewInstruction + Separator + BundleHeading + Separator + aggregate
  }

  /** The user message is the array of its four sections joined with blank lines. */
  lemma UserPromptIsJoin(focus: string, aggregate: string)
    ensures UserPrompt(focus, aggregate)
            == Join([FocusPrefix + focus, ReviewInstruction, BundleHeading, aggregate], Separator)
  {
    JoinCons(aggregate, [], Separator);
    JoinCons(BundleHeading, [aggregate], Separator);
    JoinCons(ReviewInstruction, [BundleHeading, aggregate], Separator);
    JoinCons(FocusPrefix + focus, [ReviewInstruction, BundleHeading, aggregate], Separator);
    assert [aggregate] == [aggregate] + [];
  }

  /** The focus is read back from the front of the prompt and the aggregate from its end. */
  lemma UserPromptSections(focus: string, aggregate: string)
    ensures var r := UserPrompt(focus, aggregate);
            |r| == |FocusPrefix| + |focus| + |Separator| + |ReviewInstruction| + |Separator|
                   + |BundleHeading| + |Separator| + |aggregate|
            && r[..|FocusPrefix| + |focus|] == FocusPrefix + focus
            && r[|r| - |aggregate|..] == aggregate
  {
  }

  /** Some of the parts of the chat-completion request the code fixes (the JSON encoding is not modelled). */
  datatype Request = Request(
    endpoint: string, model: string, temperature: real,
    authorization: string, systemMessage: string, userMessage: string)

  function BuildRequest(apiKey: string, focus: string, aggregate: string): Request {
    Request(Endpoint, ModelName, Temperature, "Bearer " + Trim(apiKey),
            SystemPrompt, UserPrompt(focus, aggregate))
  }

  // ---------------------------------------------------------------------
  // Validation before a run

  /** How the two checks at the start of a run come out. */
  datatype RunCheck = MissingKey | EmptyInput | Ready

  /** The key is checked first and the content second. */
  function CheckRun(apiKey: string, aggregate: string): (c: RunCheck)
    ensures c == MissingKey <==> IsBlank(apiKey)
    ensures c == EmptyInput <==> !IsBlank(apiKey) && IsBlank(aggregate)
    ensures c == Ready <==> !IsBlank(apiKey) && !IsBlank(aggregate)
  {
    if IsBlank(apiKey) then MissingKey
    else if IsBlank(aggregate) then EmptyInput
    else Ready
  }

  /** The message a failed check leaves in `error`. */
  function CheckMessage(c: RunCheck): string
    requires c != Ready
  {
    if c == MissingKey then MissingKeyMessage else EmptyInputMessage
  }

  // ---------------------------------------------------------------------
  // Outcomes of the request

  /**
   * What the awaited part of a run ends in. `Completed` is a 2xx response whose
   * JSON parsed, with `choices[0].message.content` if present; `HttpFailure`
   * is any other status with the response text; `Thrown` is any `Error` thrown
   * on the way (network failure, unparsable JSON) with its message;
   * `NonErrorThrown` is a thrown value that is not an `Error`.
   */
  datatype Outcome =
    | Completed(content: Option<string>)
    | HttpFailure(status: nat, body: string)
    | Thrown(message: string)
    | NonErrorThrown

  /** The review text a completed request yields: the content, or the fallback when it is absent. */
  function ReviewText(content: Option<string>): string {
    match content
    case Some(text) => text
    case None => NoContentFallback
  }

  /** The message of the `Error` thrown for a non-2xx response. */
  function HttpFailureMessage(status: nat, body: string): (r: string)
    ensures |r| > |HttpFailurePrefix| + |body| && r[..|HttpFailurePrefix|] == HttpFailurePrefix
    ensures r[|r| - |body|..] == body
  {
    HttpFailurePrefix + NatToString(status) + HttpFailureInfix + body
  }

  /** Reads a status and a body back out of an HTTP failure message. */
  function ParseHttpFailure(m: string): Option<(nat, string)> {
    if |m| < |HttpFailurePrefix| || m[..|HttpFailurePrefix|] != HttpFailurePrefix then None
    else
      var rest := m[|HttpFailurePrefix|..];
      var digits := LeadingDigits(rest);
      var tail := rest[|digits|..];
      if digits == [] || |tail| < |HttpFailureInfix| || tail[..|HttpFailureInfix|] != HttpFailureInfix then None
      else Some((DigitsValue(digits), tail[|HttpFailureInfix|..]))
  }

  /** The status and the body are both recoverable, verbatim, from the error message. */
  lemma HttpFailureRoundTrip(status: nat, body: string)
    ensures ParseHttpFailure(HttpFailureMessage(status, body)) == Some((status, body))
  {
    var m := HttpFailureMessage(status, body);
    var d := NatToString(status);
    var rest := m[|HttpFailurePrefix|..];
    assert rest == d + (HttpFailureInfix + body);
    LeadingDigitsOf(d, HttpFailureInfix + body);
    assert rest[|d|..] == HttpFailureInfix + body;
    DecimalRoundTrip(status);
  }

  /** The message stored in `error` when a run fails after validation. */
  function FailureMessage(outcome: Outcome): string
    requires !outcome.Completed?
  {
    match outcome
    case HttpFailure(status, body) => HttpFailureMessage(status, body)
    case Thrown(message) => message
    case NonErrorThrown => UnexpectedFailureMessage
  }

  /** The error message for an upload batch in which `fileName` could not be read. */
  function ReadFailureMessage(fileName: string): (r: string)
    ensures |r| > |fileName| && r[..|fileName|] == fileName
  {
    fileName + ReadFailureSuffix
  }

  // ---------------------------------------------------------------------
  // The history summary

  const SummaryFiles: string := "파일 "
  const SummaryMiddle: string := "개, 수동 입력 "
  const SummaryEnd: string := "자"

  /** `파일 <n>개, 수동 입력 <m>자`, with `m` the JavaScript length of the buffer. */
  function Summary(fileCount: nat, editorCode: string): string {
    SummaryFiles + NatToString(fileCount) + SummaryMiddle + NatToString(Utf16Length(editorCode)) + SummaryEnd
  }

  /** Reads the two counts back out of a summary. */
  function ParseSummary(s: string): Option<(nat, nat)> {
    if |s| < |SummaryFiles| || s[..|SummaryFiles|] != SummaryFiles then None
    else
      var rest := s[|SummaryFiles|..];
      var d1 := LeadingDigits(rest);
      var tail := rest[|d1|..];
      if d1 == [] || |tail| < |SummaryMiddle| || tail[..|SummaryMiddle|] != SummaryMiddle then None
      else
        var rest2 := tail[|SummaryMiddle|..];
        var d2 := LeadingDigits(rest2);
        if d2 == [] || rest2[|d2|..] != SummaryEnd then None
        else Some((DigitsValue(d1), DigitsValue(d2)))
  }

  /** A summary records the file count and the buffer length it was made from. */
  lemma SummaryRoundTrip(fileCount: nat, editorCode: string)
    ensures ParseSummary(Summary(fileCount, editorCode)) == Some((fileCount, Utf16Length(editorCode)))
  {
    var n1 := NatToString(fileCount);
    var n2 := NatToString(Utf16Length(editorCode));
    var s := Summary(fileCount, editorCode);
    assert s[..|SummaryFiles|] == SummaryFiles;
    var rest := s[|SummaryFiles|..];
    assert rest == n1 + (SummaryMiddle + n2 + SummaryEnd);
    LeadingDigitsOf(n1, SummaryMiddle + n2 + SummaryEnd);
    var tail := rest[|n1|..];
    assert tail == SummaryMiddle + n2 + SummaryEnd;
    assert tail[..|SummaryMiddle|] == SummaryMiddle;
    var rest2 := tail[|SummaryMiddle|..];
    assert rest2 == n2 + SummaryEnd;
    LeadingDigitsOf(n2, SummaryEnd);
    assert rest2[|n2|..] == SummaryEnd;
    DecimalRoundTrip(fileCount);
    DecimalRoundTrip(Utf16Length(editorCode));
  }

  // ---------------------------------------------------------------------
  // The file list

  predicate HasFile(files: seq<UploadedFile>, id: string) {
    exists i :: 0 <= i < |files| && files[i].id == id
  }

  predicate DistinctIds(files: seq<UploadedFile>) {
    forall i, j :: 0 <= i < j < |files| ==> files[i].id != files[j].id
  }

  /** A file of the given id is in a concatenation exactly when it is in one of the parts. */
  lemma HasFileAppend(a: seq<UploadedFile>, b: seq<UploadedFile>, id: string)
    ensures HasFile(a + b, id) <==> HasFile(a, id) || HasFile(b, id)
  {
    if HasFile(a, id) {
      var i :| 0 <= i < |a| && a[i].id == id;
      assert (a + b)[i] == a[i];
    }
    if HasFile(b, id) {
      var i :| 0 <= i < |b| && b[i].id == id;
      assert (a + b)[|a| + i] == b[i];
    }
    if HasFile(a + b, id) {
      var i :| 0 <= i < |a + b| && (a + b)[i].id == id;
      if i < |a| { assert a[i] == (a + b)[i]; } else { assert b[i - |a|] == (a + b)[i]; }
    }
  }

  /** The selection names a file in the list, or nothing. */
  predicate SelectionValid(files: seq<UploadedFile>, selected: Option<string>) {
    selected.None? || HasFile(files, selected.value)
  }

  /**
   * `files.find((file) => file.id === selectedFileId)`: the first file with the
   * selected id; nothing when no file has it or nothing is selected.
   */
  function FindFile(files: seq<UploadedFile>, selected: Option<string>): (r: Option<UploadedFile>)
    ensures r.Some? ==> r.value in files && selected == Some(r.value.id)
    ensures r.None? ==> selected.None? || !HasFile(files, selected.value)
    ensures r.Some? ==> exists i :: 0 <= i < |files| && files[i] == r.value
                                    && forall j :: 0 <= j < i ==> files[j].id != r.value.id
  {
    if selected.None? || files == [] then None
    else if files[0].id == selected.value then Some(files[0])
    else
      var r := FindFile(files[1..], selected);
      assert HasFile(files, selected.value) ==> HasFile(files[1..], selected.value) by {
        if HasFile(files, selected.value) {
          var i :| 0 <= i < |files| && files[i].id == selected.value;
          assert files[1..][i - 1] == files[i];
        }
      }
      if r.Some? then
        var i :| 0 <= i < |files[1..]| && files[1..][i] == r.value
                 && forall j :: 0 <= j < i ==> files[1..][j].id != r.value.id;
        assert files[i + 1] == r.value;
        assert forall j :: 0 <= j < i + 1 ==> files[j].id != r.value.id by {
          forall j | 0 <= j < i + 1 ensures files[j].id != r.value.id {
            if j > 0 { assert files[j] == files[1..][j - 1]; }
          }
        }
        r
      else r
  }

  /** `!selectedFileId`: JavaScript treats both `null` and `""` as nothing selected. */
  predicate NothingSelected(selected: Option<string>) {
    selected == None || selected == Some("")
  }

  /** `files.filter((file) => file.id !== id)`. */
  function WithoutId(files: seq<UploadedFile>, id: string): (r: seq<UploadedFile>)
    ensures |r| <= |files|
    ensures forall k :: 0 <= k < |r| ==> r[k].id != id
  {
    if files == [] then []
    else if files[0].id == id then WithoutId(files[1..], id)
    else [files[0]] + WithoutId(files[1..], id)
  }

  /** The filter keeps exactly the files whose id differs. */
  lemma {:induction false} WithoutIdMember(files: seq<UploadedFile>, id: string, f: UploadedFile)
    ensures f in WithoutId(files, id) <==> f in files && f.id != id
  {
    if files != [] {
      WithoutIdMember(files[1..], id, f);
      assert f in files <==> f == files[0] || f in files[1..];
    }
  }

  /** With no file of that id, the filter changes nothing. */
  lemma {:induction false} WithoutIdAbsent(files: seq<UploadedFile>, id: string)
    requires !HasFile(files, id)
    ensures WithoutId(files, id) == files
  {
    if files != [] {
      WithoutIdAbsent(files[1..], id);
      assert files[0].id != id;
    }
  }

  /** The filter keeps the order of what it keeps: it distributes over concatenation. */
  lemma {:induction false} WithoutIdAppend(a: seq<UploadedFile>, b: seq<UploadedFile>, id: string)
    ensures WithoutId(a + b, id) == WithoutId(a, id) + WithoutId(b, id)
  {
    if a != [] {
      assert (a + b)[1..] == a[1..] + b;
      assert (a + b)[0] == a[0];
      WithoutIdAppend(a[1..], b, id);
      if a[0].id != id {
        calc {
          WithoutId(a + b, id);
          [a[0]] + WithoutId(a[1..] + b, id);
          [a[0]] + (WithoutId(a[1..], id) + WithoutId(b, id));
          ([a[0]] + WithoutId(a[1..], id)) + WithoutId(b, id);
        }
      } else {
        calc {
          WithoutId(a + b, id);
          WithoutId(a[1..] + b, id);
          WithoutId(a[1..], id) + WithoutId(b, id);
        }
      }
    } else {
      assert a + b == b;
    }
  }

  /** With distinct ids, removing a present id drops exactly one file and keeps the rest distinct. */
  lemma {:induction false} WithoutIdDistinct(files: seq<UploadedFile>, id: string)
    requires DistinctIds(files)
    ensures DistinctIds(WithoutId(files, id))
    ensures |WithoutId(files, id)| == if HasFile(files, id) then |files| - 1 else |files|
  {
    if files != [] {
      WithoutIdDistinct(files[1..], id);
      var rest := WithoutId(files[1..], id);
      if files[0].id == id {
        assert !HasFile(files[1..], id);
      } else {
        assert HasFile(files, id) <==> HasFile(files[1..], id) by {
          if HasFile(files, id) {
            var i :| 0 <= i < |files| && files[i].id == id;
            assert files[1..][i - 1].id == id;
          }
        }
        forall j | 0 <= j < |rest| ensures rest[j].id != files[0].id {
          assert rest[j] in rest;
          WithoutIdMember(files[1..], id, rest[j]);
          var k :| 0 <= k < |files[1..]| && files[1..][k] == rest[j];
          assert files[k + 1] == rest[j];
        }
      }
    }
  }

  /** Removing a file keeps the selection valid when the selection is cleared for that id. */
  lemma RemovalKeepsSelection(files: seq<UploadedFile>, selected: Option<string>, id: string)
    requires SelectionValid(files, selected)
    ensures SelectionValid(WithoutId(files, id), if selected == Some(id) then None else selected)
  {
    if selected.Some? && selected.value != id {
      var i :| 0 <= i < |files| && files[i].id == selected.value;
      WithoutIdMember(files, id, files[i]);
      var j :| 0 <= j < |WithoutId(files, id)| && WithoutId(files, id)[j] == files[i];
    }
  }

  // ---------------------------------------------------------------------
  // Worked examples

  /** Two files make two blocks in upload order, one blank line apart. */
  lemma TwoFileBlocks(a: UploadedFile, b: UploadedFile, editorCode: string)
    ensures AggregateCode(FileMode, [a, b], editorCode) == FileBlock(a) + Separator + FileBlock(b)
  {
    AggregateCons(a, [b]);
    AggregateCons(b, []);
    assert [a, b] == [a] + [b];
    assert [b] == [b] + [];
  }

  /** Two files, the second empty: two blocks in upload order. */
  lemma ExampleTwoFiles()
    ensures AggregateCode(FileMode, [UploadedFile("1", "a.py", 3, "x=1"), UploadedFile("2", "b.py", 0, "")], "")
            == FileBlock(UploadedFile("1", "a.py", 3, "x=1")) + Separator + FileBlock(UploadedFile("2", "b.py", 0, ""))
  {
    TwoFileBlocks(UploadedFile("1", "a.py", 3, "x=1"), UploadedFile("2", "b.py", 0, ""), "");
  }

  /** An empty file's block carries the placeholder below its marker line. */
  lemma ExampleEmptyFile()
    ensures FileBlock(UploadedFile("2", "b.py", 0, "")) == "// 파일: b.py\n// (빈 파일)"
  {
    assert Trim("") == "";
  }

  /** The block of a file whose content has no surrounding whitespace carries the content as is. */
  lemma ExampleVisibleContent()
    ensures FileBlock(UploadedFile("1", "a.py", 3, "x=1")) == "// 파일: a.py\nx=1"
  {
    TrimVisibleEnds("x=1");
  }

  /** HTTP 401 with body `invalid_api_key`: the error names both. */
  lemma ExampleUnauthorized()
    ensures HttpFailureMessage(401, "invalid_api_key") == "OpenAI request failed (401): invalid_api_key"
  {
    assert NatToString(4) == "4";
    assert NatToString(40) == "40";
    assert NatToString(401) == "401";
  }
}
