/** The analysis endpoint (app/api/analyze/route.js): a chain of guards with
    early returns around one upload. Reading the form, the three text
    extractors and the analyzer are foreign calls, given as parameters; the
    handler's result records which of them it made, in order. */
module AnalyzeRoute {
  import opened JsStrings
  import opened JsValues
  import Gemini

  const MaxTextLength: nat := 500000

  const NoFileError: string := "No file uploaded"
  const UnsupportedError: string := "Unsupported file type. Please upload a PDF, DOCX, or TXT file."
  const EmptyTextError: string := "Could not extract text from the uploaded file. The file may be empty or corrupted."
  const UnexpectedError: string := "An unexpected error occurred while processing your file. Please try again."

  /** An uploaded file as the handler sees it: its declared name and size. */
  datatype Upload = Upload(name: string, size: nat)

  /** What `formData.get("file")` returns: nothing, a plain text field, or a file. */
  datatype FormEntry = Missing | Field(text: string) | File(upload: Upload)

  datatype FileKind = Pdf | Docx | Txt

  /** A foreign call the handler makes. */
  datatype Call = Extract(kind: FileKind) | Analyze(text: string)

  datatype Body =
    | Failure(error: string)
    | Success(fileName: string, fileSize: nat, textLength: nat, analysis: JsValue)

  datatype Response = Response(status: nat, body: Body)

  /** The response together with the foreign calls made, in order. */
  datatype Handled = Handled(response: Response, calls: seq<Call>)

  /** An extractor's result: the text, or `undefined`/`null` (None). */
  type Extractor = (FileKind, Upload) -> Awaited<Option<string>>
  type Analyzer = string -> Awaited<Gemini.Analysis>

  /** `fileName.split(".").pop().toLowerCase()`. */
  function Extension(name: string): (ext: string)
    ensures '.' !in ext && |ext| <= |name|
    ensures ext == ToLower(name[|name| - |ext|..])
    ensures |ext| < |name| ==> name[|name| - |ext| - 1] == '.'
  {
    ToLower(AfterLast(name, '.'))
  }

  /** The extension dispatch; anything else is unsupported. */
  function KindOf(ext: string): (k: Option<FileKind>)
    ensures k == Some(Pdf) <==> ext == "pdf"
    ensures k == Some(Docx) <==> ext == "docx"
    ensures k == Some(Txt) <==> ext == "txt"
  {
    if ext == "pdf" then Some(Pdf)
    else if ext == "docx" then Some(Docx)
    else if ext == "txt" then Some(Txt)
    else None
  }

  /** `text.substring(0, 500000)`. */
  function Truncate(text: string): (t: string)
    ensures |t| == if |text| < MaxTextLength then |text| else MaxTextLength
    ensures t == text[..|t|]
  {
    if |text| <= MaxTextLength then text else text[..MaxTextLength]
  }

  function Fail(status: nat, error: string): Response
  {
    Response(status, Failure(error))
  }

  /** `POST(request)`. `form` is the awaited `request.formData()` with its
      "file" entry. */
  function Post(form: Awaited<FormEntry>, extract: Extractor, analyze: Analyzer): (h: Handled)
    ensures h.response.status == 200 <==> h.response.body.Success?
    ensures h.response.status in {200, 400, 500}
    ensures form == Resolved(Missing) || form == Resolved(Field("")) ==>
              h == Handled(Fail(400, NoFileError), [])
    ensures form.Threw? || (form.Resolved? && form.value.Field? && form.value.text != "") ==>
              h == Handled(Fail(500, UnexpectedError), [])
    ensures form.Resolved? && form.value.File? ==> h == HandleUpload(form.value.upload, extract, analyze)
  {
    match form
    case Threw(_) => Handled(Fail(500, UnexpectedError), [])
    case Resolved(Missing) => Handled(Fail(400, NoFileError), [])
    // a text field is falsy only when empty; otherwise `file.name` is
    // undefined and `.split` throws
    case Resolved(Field(text)) =>
      if text == "" then Handled(Fail(400, NoFileError), [])
      else Handled(Fail(500, UnexpectedError), [])
    case Resolved(File(upload)) => HandleUpload(upload, extract, analyze)
  }

  /** The handler from the extension dispatch on, for a file upload. */
  function HandleUpload(upload: Upload, extract: Extractor, analyze: Analyzer): (h: Handled)
    ensures h.response.status == 200 <==> h.response.body.Success?
    ensures h.response.status in {200, 400, 500}
    // an unsupported extension is rejected before any foreign call
    ensures KindOf(Extension(upload.name)).None? ==> h == Handled(Fail(400, UnsupportedError), [])
    // a supported one is extracted first, then handled on the extracted text
    ensures KindOf(Extension(upload.name)).Some? ==>
              var kind := KindOf(Extension(upload.name)).value;
              var rest := HandleText(upload, extract(kind, upload), analyze);
              h == Handled(rest.response, [Extract(kind)] + rest.calls)
  {
    var kind := KindOf(Extension(upload.name));
    if kind.None? then Handled(Fail(400, UnsupportedError), [])
    else
      var rest := HandleText(upload, extract(kind.value, upload), analyze);
      Handled(rest.response, [Extract(kind.value)] + rest.calls)
  }

  /** The handler after extraction: the emptiness check, the truncation, the
      analyzer call and the mapping of its result. */
  function HandleText(upload: Upload, extracted: Awaited<Option<string>>, analyze: Analyzer): (h: Handled)
    ensures h.response.status == 200 <==> h.response.body.Success?
    ensures h.response.status in {200, 400, 500}
    // an extractor that throws ends the request with the generic error
    ensures extracted.Threw? ==> h == Handled(Fail(500, UnexpectedError), [])
    // missing or blank text is rejected before the analyzer is called
    ensures extracted.Resolved? && (extracted.value.None? || AllSpace(extracted.value.value)) ==>
              h == Handled(Fail(400, EmptyTextError), [])
    // otherwise the analyzer is called exactly once, on the cut text, and its
    // outcome decides the response: a thrown exception gives the generic
    // error, a failure passes its message on unchanged, and an analysis is
    // answered with 200, echoing the file and the cut length
    ensures extracted.Resolved? && extracted.value.Some? && !AllSpace(extracted.value.value) ==>
              var t := Truncate(extracted.value.value);
              && h.calls == [Analyze(t)]
              && (analyze(t).Threw? ==> h.response == Fail(500, UnexpectedError))
              && (analyze(t).Resolved? && analyze(t).value.Failed? ==> h.response == Fail(500, analyze(t).value.error))
              && (analyze(t).Resolved? && analyze(t).value.Analyzed? ==>
                    h.response == Response(200, Success(upload.name, upload.size, |t|, analyze(t).value.data)))
    ensures forall c | c in h.calls :: c.Analyze? && extracted.Resolved? && extracted.value.Some?
              && c.text == Truncate(extracted.value.value)
  {
    match extracted
    case Threw(_) => Handled(Fail(500, UnexpectedError), [])
    case Resolved(text) =>
      if text.None? || |Trim(text.value)| == 0 then
        Handled(Fail(400, EmptyTextError), [])
      else
        TrimEmptyIffAllSpace(text.value);
        var truncated := Truncate(text.value);
        var calls := [Analyze(truncated)];
        match analyze(truncated)
        case Threw(_) => Handled(Fail(500, UnexpectedError), calls)
        case Resolved(Failed(error)) => Handled(Fail(500, error), calls)
        case Resolved(Analyzed(data)) =>
          Handled(Response(200, Success(upload.name, upload.size, |truncated|, data)), calls)
  }

  /** The JSON object `NextResponse.json` sends for a body. */
  function ToJs(b: Body): (v: JsValue)
    ensures v.Obj? && Get(v, "success") == Bool(b.Success?)
    ensures b.Failure? ==> v.props.Keys == {"success", "error"} && Get(v, "error") == Str(b.error)
    ensures b.Success? ==>
              && v.props.Keys == {"success", "fileName", "fileSize", "textLength", "analysis"}
              && Get(v, "fileName") == Str(b.fileName)
              && Get(v, "fileSize") == Number(b.fileSize as real)
              && Get(v, "textLength") == Number(b.textLength as real)
              && Get(v, "analysis") == b.analysis
  {
    match b
    case Failure(error) => Obj(map["success" := Bool(false), "error" := Str(error)])
    case Success(fileName, fileSize, textLength, analysis) =>
      Obj(map["success" := Bool(true), "fileName" := Str(fileName), "fileSize" := Number(fileSize as real),
              "textLength" := Number(textLength as real), "analysis" := analysis])
  }

  // ----- Properties of the extension dispatch -----

  /** The extension is what follows the last dot, in lower case: the dispatch
      ignores the case of the extension and everything before the last dot. */
  lemma {:induction false} ExtensionAfterLastDot(stem: string, ext: string)
    requires '.' !in ext
    ensures Extension(stem + "." + ext) == ToLower(ext)
  {
    AfterLastOf(stem, '.', ext);
  }

  /** Corner cases of `split(".").pop()`. The case of the extension does not
      matter. */
  lemma UpperCaseExtension()
    ensures KindOf(Extension("A.Tender.PDF")) == Some(Pdf)
  {
    ExtensionAfterLastDot("A.Tender", "PDF");
    assert "A.Tender" + "." + "PDF" == "A.Tender.PDF";
    assert ToLower("PDF")[0] == 'p';
  }

  /** A name without a dot is its own extension: a file named just "txt" is
      read as text. */
  lemma NameWithoutDot()
    ensures KindOf(Extension("txt")) == Some(Txt)
  {
    AfterLastNone("txt", '.');
  }

  /** A name ending in a dot has an empty extension and is refused. */
  lemma TrailingDot()
    ensures KindOf(Extension("notes.txt.")) == None
  {
    ExtensionAfterLastDot("notes.txt", "");
    assert "notes.txt" + "." + "" == "notes.txt.";
  }

  /** Only the last extension counts. */
  lemma OnlyLastExtension()
    ensures KindOf(Extension("archive.pdf.zip")) == None
  {
    ExtensionAfterLastDot("archive.pdf", "zip");
    assert "archive.pdf" + "." + "zip" == "archive.pdf.zip";
  }

  // ----- The endpoint with the text analyzer of lib/gemini.js -----

  /** With `analyzeTender` as the analyzer, non-blank extracted text reaches
      the model as the document part of the prompt, cut to at most 500000
      characters; the request succeeds exactly when the model call and the
      JSON parse both do, and every failure carries a non-empty message. */
  lemma WithTextAnalyzer(upload: Upload, text: string, generate: Gemini.ModelRequest -> Awaited<string>,
                          parse: string -> Awaited<JsValue>)
    requires !AllSpace(text)
    ensures var analyze := (t: string) => Resolved(Gemini.AnalyzeTender(t, generate, parse));
            var h := HandleText(upload, Resolved(Some(text)), analyze);
            var sent := Gemini.TextRequest(h.calls[0].text);
            && |h.calls| == 1
            && Gemini.DocumentOf(sent.parts[0].text) == Truncate(text)
            && |Gemini.DocumentOf(sent.parts[0].text)| <= MaxTextLength
            && (h.response.status == 200 <==> generate(sent).Resolved? && parse(Gemini.Clean(generate(sent).value)).Resolved?)
            && (h.response.body.Failure? ==> h.response.body.error != "")
  {
    var t := Truncate(text);
    Gemini.PromptRoundTrip(t);
  }
}
