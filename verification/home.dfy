/** The upload page (app/page.js): the client-side file check, the size label,
    and the component state (`file`, `error`, `loading`, `dragActive`) that the
    event handlers update. The request to the endpoint is a parameter: the
    awaited reply body, or the exception thrown while fetching or decoding it. */
module HomePage {
  import opened JsStrings
  import opened JsValues
  import AnalyzeRoute

  const AcceptedTypes: seq<string> := [
    "application/pdf",
    "application/vnd.openxmlformats-officedocument.wordprocessingml.document",
    "text/plain"
  ]
  const MaxSize: nat := 50 * 1024 * 1024

  const NoFileMessage: string := "Please select a file."
  const UnsupportedMessage: string := "Unsupported file type. Please upload a PDF, DOCX, or TXT file."
  const TooLargeMessage: string := "File too large. Maximum size is 50MB."
  const AnalysisFailedMessage: string := "Analysis failed. Please try again."
  const NetworkMessage: string := "Network error. Please check your connection and try again."

  /** A browser File: its name, its MIME type and its size in bytes. */
  datatype FileInfo = FileInfo(name: string, mimeType: string, size: nat)

  /** `/\.(pdf|docx|txt)$/i` */
  predicate HasAcceptedSuffix(name: string) {
    EndsWithIgnoreCase(name, ".pdf") || EndsWithIgnoreCase(name, ".docx") || EndsWithIgnoreCase(name, ".txt")
  }

  predicate TypeAccepted(f: FileInfo) {
    f.mimeType in AcceptedTypes || HasAcceptedSuffix(f.name)
  }

  /** `validateFile(f)`: None stands for `null`, "no problem". */
  function ValidateFile(f: Option<FileInfo>): (r: Option<string>)
    ensures r.None? <==> (f.Some? && TypeAccepted(f.value) && f.value.size <= MaxSize)
    ensures f.None? ==> r == Some(NoFileMessage)
    ensures f.Some? && !TypeAccepted(f.value) ==> r == Some(UnsupportedMessage)
    ensures f.Some? && TypeAccepted(f.value) && f.value.size > MaxSize ==> r == Some(TooLargeMessage)
  {
    if f.None? then Some(NoFileMessage)
    else if !(f.value.mimeType in AcceptedTypes) && !HasAcceptedSuffix(f.value.name) then Some(UnsupportedMessage)
    else if f.value.size > MaxSize then Some(TooLargeMessage)
    else None
  }

  datatype Unit = B | KB | MB

  /** The quantity `formatSize` prints and its unit; the printed text rounds
      `amount` to one decimal for KB and MB. */
  datatype SizeLabel = SizeLabel(amount: real, unit: Unit)

  function UnitBytes(u: Unit): real {
    match u
    case B => 1.0
    case KB => 1024.0
    case MB => 1024.0 * 1024.0
  }

  /** `formatSize(bytes)`: the largest unit that keeps the amount at least one,
      stopping at MB. */
  function FormatSize(bytes: nat): (r: SizeLabel)
    ensures r.amount * UnitBytes(r.unit) == bytes as real
    ensures r.unit == B <==> bytes < 1024
    ensures r.unit == B ==> r.amount < 1024.0
    ensures r.unit == KB ==> 1.0 <= r.amount < 1024.0
    ensures r.unit == MB ==> 1.0 <= r.amount
  {
    if bytes < 1024 then SizeLabel(bytes as real, B)
    else if bytes < 1024 * 1024 then SizeLabel(bytes as real / 1024.0, KB)
    else SizeLabel(bytes as real / (1024.0 * 1024.0), MB)
  }

  /** The ceiling is inclusive: exactly 50 MiB passes, one byte more does not. */
  lemma SizeCeilingBoundary(name: string)
    ensures ValidateFile(Some(FileInfo(name, "text/plain", MaxSize))) == None
    ensures ValidateFile(Some(FileInfo(name, "text/plain", MaxSize + 1))) == Some(TooLargeMessage)
  {
    assert AcceptedTypes[2] == "text/plain";
  }

  /** `err || ""`: the text the error banner holds after `handleFile`. */
  function ErrorText(problem: Option<string>): string
  {
    if problem.Some? then problem.value else ""
  }

  /** One call of a state setter. */
  datatype Write =
    | ErrorSet(error: string)
    | FileSet(file: Option<FileInfo>)
    | LoadingSet(loading: bool)
    | DragSet(active: bool)

  /** The `HomePage` component's state. `writes` records the setter calls, in
      order. */
  class Home {
    var file: Option<FileInfo>
    var error: string
    var loading: bool
    var dragActive: bool
    ghost var writes: seq<Write>

    /** A file the page holds has passed `validateFile`. */
    predicate Valid()
      reads this
    {
      file.Some? ==> ValidateFile(file).None?
    }

    constructor ()
      ensures Valid()
      ensures file == None && error == "" && !loading && !dragActive && writes == []
    {
      file, error, loading, dragActive := None, "", false, false;
      writes := [];
    }

    method SetError(e: string)
      modifies this
      ensures error == e && writes == old(writes) + [ErrorSet(e)]
      ensures file == old(file) && loading == old(loading) && dragActive == old(dragActive)
    {
      error := e;
      writes := writes + [ErrorSet(e)];
    }

    method SetFile(f: Option<FileInfo>)
      modifies this
      ensures file == f && writes == old(writes) + [FileSet(f)]
      ensures error == old(error) && loading == old(loading) && dragActive == old(dragActive)
    {
      file := f;
      writes := writes + [FileSet(f)];
    }

    method SetLoading(b: bool)
      modifies this
      ensures loading == b && writes == old(writes) + [LoadingSet(b)]
      ensures file == old(file) && error == old(error) && dragActive == old(dragActive)
    {
      loading := b;
      writes := writes + [LoadingSet(b)];
    }

    method SetDragActive(b: bool)
      modifies this
      ensures dragActive == b && writes == old(writes) + [DragSet(b)]
      ensures file == old(file) && error == old(error) && loading == old(loading)
    {
      dragActive := b;
      writes := writes + [DragSet(b)];
    }

    /** `handleFile(f)`: an invalid file leaves its message and no file; a
        valid one is kept and the banner is empty. */
    method HandleFile(f: Option<FileInfo>)
      modifies this
      requires Valid()
      ensures Valid()
      ensures error == ErrorText(ValidateFile(f))
      ensures file == if ValidateFile(f).None? then f else None
      ensures loading == old(loading) && dragActive == old(dragActive)
      ensures writes == old(writes) + [ErrorSet("")] +
                (if ValidateFile(f).Some? then [ErrorSet(ValidateFile(f).value), FileSet(None)]
                 else [FileSet(f)])
    {
      SetError("");
      var problem := ValidateFile(f);
      if problem.Some? {
        SetError(problem.value);
        SetFile(None);
        return;
      }
      SetFile(f);
    }

    /** `handleDrop(e)`: the drag highlight always goes off; only the first
        dropped file, if any, is handled. */
    method HandleDrop(files: seq<FileInfo>)
      modifies this
      requires Valid()
      ensures Valid()
      ensures !dragActive && loading == old(loading)
      ensures |files| == 0 ==> file == old(file) && error == old(error)
                               && writes == old(writes) + [DragSet(false)]
      ensures |files| > 0 ==> error == ErrorText(ValidateFile(Some(files[0])))
                              && file == (if ValidateFile(Some(files[0])).None? then Some(files[0]) else None)
                              && writes == old(writes) + [DragSet(false), ErrorSet("")] +
                                   (if ValidateFile(Some(files[0])).Some?
                                    then [ErrorSet(ValidateFile(Some(files[0])).value), FileSet(None)]
                                    else [FileSet(Some(files[0]))])
    {
      SetDragActive(false);
      if |files| > 0 {
        HandleFile(Some(files[0]));
      }
    }

    /** `handleDrag(e)` for an event of the given type. */
    method HandleDrag(eventType: string)
      modifies this
      requires Valid()
      ensures Valid()
      ensures eventType == "dragenter" || eventType == "dragover" ==>
                dragActive && writes == old(writes) + [DragSet(true)]
      ensures eventType == "dragleave" ==> !dragActive && writes == old(writes) + [DragSet(false)]
      ensures eventType !in {"dragenter", "dragover", "dragleave"} ==>
                dragActive == old(dragActive) && writes == old(writes)
      ensures file == old(file) && error == old(error) && loading == old(loading)
    {
      if eventType == "dragenter" || eventType == "dragover" {
        SetDragActive(true);
      } else if eventType == "dragleave" {
        SetDragActive(false);
      }
    }

    /** `handleAnalyze()`. `reply` is the body the endpoint answered with, or
        the exception `fetch` or `res.json()` threw. `stored` is what is kept in
        the session store before moving to the report page, if it is. */
    method HandleAnalyze(reply: Awaited<AnalyzeRoute.Body>) returns (sent: bool, stored: Option<JsValue>)
      modifies this
      requires Valid()
      ensures Valid()
      ensures sent <==> old(file).Some?
      ensures !sent ==> file == old(file) && error == old(error) && loading == old(loading)
                        && writes == old(writes) && stored == None
      ensures sent && reply.Threw? ==>
                error == NetworkMessage && !loading && stored == None
                && writes == old(writes) + [LoadingSet(true), ErrorSet(""), ErrorSet(NetworkMessage), LoadingSet(false)]
      ensures sent && reply.Resolved? && reply.value.Failure? ==>
                var shown := if reply.value.error != "" then reply.value.error else AnalysisFailedMessage;
                error == shown && !loading && stored == None
                && writes == old(writes) + [LoadingSet(true), ErrorSet(""), ErrorSet(shown), LoadingSet(false)]
      // on success the page moves on and stays in its loading state
      ensures sent && reply.Resolved? && reply.value.Success? ==>
                stored == Some(AnalyzeRoute.ToJs(reply.value)) && loading && error == ""
                && writes == old(writes) + [LoadingSet(true), ErrorSet("")]
      ensures file == old(file) && dragActive == old(dragActive)
    {
      sent, stored := false, None;
      if file.None? {
        return;
      }
      sent := true;
      SetLoading(true);
      SetError("");
      match reply {
        case Threw(_) =>
          SetError(NetworkMessage);
          SetLoading(false);
        case Resolved(body) =>
          if body.Failure? {
            SetError(if body.error != "" then body.error else AnalysisFailedMessage);
            SetLoading(false);
            return;
          }
          stored := Some(AnalyzeRoute.ToJs(body));
      }
    }
  }

  // ----- Properties relating the page to the endpoint -----

  /** A name the page accepts by its suffix is dispatched by the endpoint to
      the extractor of that kind. */
  lemma AcceptedSuffixIsDispatched(name: string)
    requires HasAcceptedSuffix(name)
    ensures AnalyzeRoute.KindOf(AnalyzeRoute.Extension(name)).Some?
  {
    if EndsWithIgnoreCase(name, ".pdf") {
      assert ".pdf" == "." + "pdf";
      SuffixIsExtension(name, "pdf");
    } else if EndsWithIgnoreCase(name, ".docx") {
      assert ".docx" == "." + "docx";
      SuffixIsExtension(name, "docx");
    } else {
      assert ".txt" == "." + "txt";
      SuffixIsExtension(name, "txt");
    }
  }

  /** A name ending, in any case, in "." and a lower-case extension without a
      dot has that extension. */
  lemma SuffixIsExtension(name: string, ext: string)
    requires '.' !in ext && EndsWithIgnoreCase(name, "." + ext)
    ensures AnalyzeRoute.Extension(name) == ext
  {
    var n, k := |name|, |ext|;
    var dot, tail := name[n - k - 1], name[n - k..];
    assert name[n - k - 1..] == [dot] + tail;
    LowerCons(dot, tail);
    assert [LowerAscii(dot)] + ToLower(tail) == ['.'] + ext;
    HeadTail(LowerAscii(dot), ToLower(tail), '.', ext);
    LowerNoDot(tail);
    SuffixExtension(name, k);
  }

  lemma HeadTail(a: char, s: string, b: char, t: string)
    requires [a] + s == [b] + t
    ensures a == b && s == t
  {
    assert ([a] + s)[0] == a && ([b] + t)[0] == b;
    assert ([a] + s)[1..] == s && ([b] + t)[1..] == t;
  }

  /** Lower-casing neither creates nor removes a dot. */
  lemma LowerNoDot(s: string)
    requires '.' !in ToLower(s)
    ensures '.' !in s
  {
    forall i | 0 <= i < |s|
      ensures s[i] != '.'
    {
      assert ToLower(s)[i] == LowerAscii(s[i]);
    }
  }

  /** When a name ends in "." followed by `k` characters without a dot, the
      extension is those characters, lower-cased. */
  lemma SuffixExtension(name: string, k: nat)
    requires k < |name| && name[|name| - k - 1] == '.' && '.' !in name[|name| - k..]
    ensures AnalyzeRoute.Extension(name) == ToLower(name[|name| - k..])
  {
    var n := |name|;
    assert name == name[..n - k - 1] + ['.'] + name[n - k..];
    AfterLastOf(name[..n - k - 1], '.', name[n - k..]);
  }

  lemma LowerCons(c: char, t: string)
    ensures ToLower([c] + t) == [LowerAscii(c)] + ToLower(t)
  {
    assert forall i | 0 < i <= |t| :: ([c] + t)[i] == t[i - 1];
  }

  /** The page and the endpoint disagree: a file the page accepts for its MIME
      type alone, under a name without a dot that is not itself one of the
      three extensions, is refused by the endpoint as unsupported. */
  lemma MimeOnlyAcceptanceRefusedByEndpoint(name: string, size: nat, extract: AnalyzeRoute.Extractor,
                                            analyze: AnalyzeRoute.Analyzer)
    requires '.' !in name && ToLower(name) !in {"pdf", "docx", "txt"} && size <= MaxSize
    ensures ValidateFile(Some(FileInfo(name, "application/pdf", size))).None?
    ensures AnalyzeRoute.Post(Resolved(AnalyzeRoute.File(AnalyzeRoute.Upload(name, size))), extract, analyze)
            == AnalyzeRoute.Handled(AnalyzeRoute.Fail(400, AnalyzeRoute.UnsupportedError), [])
  {
    assert ValidateFile(Some(FileInfo(name, "application/pdf", size))).None? by {
      assert AcceptedTypes[0] == "application/pdf";
    }
    assert AnalyzeRoute.KindOf(AnalyzeRoute.Extension(name)).None? by {
      AfterLastNone(name, '.');
      assert AnalyzeRoute.Extension(name) == ToLower(name);
    }
  }
}
