/** The client of the generative model (lib/gemini.js): the fixed instruction
    text, the two request shapes (document text appended to the instructions,
    or a PDF attachment beside them), the cleaning of the model's reply before
    it is parsed as JSON, and the wrapping of every outcome into a result. The
    model call and JSON.parse are parameters. */
module Gemini {
  import opened JsStrings
  import opened JsValues

  /** The model identifier both request paths name. */
  const ModelName: string := "gemini-2.5-flash"

  /** The fixed instruction text: analyst persona, target JSON shape and
      formatting rules. */
  const AnalysisPrompt: string := @"You are an expert government tender/procurement analyst. Analyze the following tender document and extract structured information.

Return your response as a valid JSON object with exactly these fields:

{
  ""summary"": {
    ""projectName"": ""Name of the project or tender"",
    ""issuingAuthority"": ""Organization issuing the tender"",
    ""tenderReference"": ""Reference/ID number of the tender"",
    ""estimatedValue"": ""Estimated contract value (number or string)"",
    ""currency"": ""Currency code (e.g. USD, EUR, ZAR)"",
    ""submissionDeadline"": ""Submission deadline date"",
    ""projectDuration"": ""Duration of the project"",
    ""location"": ""Project location"",
    ""sector"": ""Industry sector"",
    ""briefDescription"": ""Brief 2-3 sentence description of the tender""
  },
  ""requirements"": [
    {
      ""category"": ""Category of requirement (e.g. Technical, Financial, Legal)"",
      ""requirement"": ""Description of the requirement"",
      ""mandatory"": true,
      ""priority"": ""HIGH | MEDIUM | LOW""
    }
  ],
  ""complianceChecklist"": [
    {
      ""item"": ""Compliance item description"",
      ""category"": ""Category (e.g. Documentation, Legal, Financial)"",
      ""critical"": true
    }
  ],
  ""riskFlags"": [
    {
      ""risk"": ""Description of the risk"",
      ""severity"": ""HIGH | MEDIUM | LOW"",
      ""recommendation"": ""How to mitigate this risk""
    }
  ],
  ""keyDates"": [
    {
      ""event"": ""Name of the event/milestone"",
      ""date"": ""Date or timeframe""
    }
  ],
  ""evaluationCriteria"": [
    {
      ""criterion"": ""Name of the evaluation criterion"",
      ""weight"": ""Weight or percentage"",
      ""details"": ""Details about what is evaluated""
    }
  ],
  ""financialRequirements"": {
    ""bidBond"": ""Bid bond/guarantee requirement"",
    ""performanceBond"": ""Performance bond/guarantee requirement"",
    ""minimumTurnover"": ""Minimum annual turnover requirement"",
    ""otherFinancial"": ""Any other financial requirements""
  },
  ""bidScore"": {
    ""score"": 75,
    ""recommendation"": ""BID"",
    ""reasoning"": ""Detailed reasoning for the bid/no-bid recommendation""
  }
}

Important instructions:
- The ""score"" must be a number between 0 and 100
- The ""recommendation"" must be either ""BID"" or ""NO-BID""
- All arrays should have at least one item if relevant information exists
- If information is not found in the document, use ""Not specified"" for strings
- Return ONLY valid JSON, no markdown formatting or extra text"

  /** What separates the instructions from the document on the text path. */
  const DocumentHeading: string := "\n\nTENDER DOCUMENT:\n"

  const JsonFence: string := "```json"
  const Fence: string := "```"
  const PdfMimeType: string := "application/pdf"
  const TextFailure: string := "Failed to analyze tender document"
  const PdfFailure: string := "Failed to analyze tender PDF"

  /** One part of a request: an inline attachment or a piece of text. */
  datatype Part = InlineData(mimeType: string, data: string) | TextPart(text: string)

  /** One `generateContent` call: the model and the parts it is given. A call
      with a plain string is a request of one text part. */
  datatype ModelRequest = ModelRequest(model: string, parts: seq<Part>)

  /** `{success: true, data}` or `{success: false, error}`. */
  datatype Analysis = Analyzed(data: JsValue) | Failed(error: string)

  /** `s.replace(new RegExp(tag + "\\s*", "g"), "")`: every occurrence of `tag`
      found scanning left to right, together with the whitespace run after it,
      is removed; the scan resumes after the removed text. */
  function RemoveAll(s: string, tag: string): (r: string)
    requires tag != []
    ensures |r| <= |s|
    decreases |s|
  {
    if |s| == 0 then []
    else if tag <= s then RemoveAll(TrimStart(s[|tag|..]), tag)
    else [s[0]] + RemoveAll(s[1..], tag)
  }

  /** The text handed to JSON.parse by `parseGeminiResponse`. */
  function Clean(raw: string): string
  {
    Trim(RemoveAll(RemoveAll(raw, JsonFence), Fence))
  }

  /** The prompt of the text path: instructions, heading, document. */
  function TextPrompt(doc: string): string
  {
    AnalysisPrompt + DocumentHeading + doc
  }

  /** The document part of a text-path prompt. */
  function DocumentOf(prompt: string): string
    requires |AnalysisPrompt + DocumentHeading| <= |prompt|
  {
    prompt[|AnalysisPrompt + DocumentHeading|..]
  }

  function TextRequest(doc: string): ModelRequest
  {
    ModelRequest(ModelName, [TextPart(TextPrompt(doc))])
  }

  function PdfRequest(base64Pdf: string): ModelRequest
  {
    ModelRequest(ModelName, [InlineData(PdfMimeType, base64Pdf), TextPart(AnalysisPrompt)])
  }

  /** `error.message || fallback`. */
  function MessageOr(message: string, fallback: string): string
  {
    if message != "" then message else fallback
  }

  /** The shared body of both paths: call the model, clean and parse its reply,
      and turn whatever is thrown on the way into a failure. */
  function Complete(request: ModelRequest, generate: ModelRequest -> Awaited<string>,
                    parse: string -> Awaited<JsValue>, fallback: string): (r: Analysis)
    requires fallback != ""
    ensures r.Analyzed? <==> (generate(request).Resolved?
                              && parse(Clean(generate(request).value)).Resolved?)
    ensures r.Analyzed? ==> r.data == parse(Clean(generate(request).value)).value
    ensures generate(request).Threw? ==> r == Failed(MessageOr(generate(request).message, fallback))
    ensures generate(request).Resolved? && parse(Clean(generate(request).value)).Threw? ==>
              r == Failed(MessageOr(parse(Clean(generate(request).value)).message, fallback))
    ensures r.Failed? ==> r.error != ""
  {
    match generate(request)
    case Threw(m) => Failed(MessageOr(m, fallback))
    case Resolved(text) =>
      match parse(Clean(text))
      case Threw(m) => Failed(MessageOr(m, fallback))
      case Resolved(data) => Analyzed(data)
  }

  /** `analyzeTender(documentText)`. */
  function AnalyzeTender(doc: string, generate: ModelRequest -> Awaited<string>,
                         parse: string -> Awaited<JsValue>): (r: Analysis)
    ensures r.Analyzed? <==> (generate(TextRequest(doc)).Resolved?
                              && parse(Clean(generate(TextRequest(doc)).value)).Resolved?)
    ensures r.Failed? ==> r.error != ""
  {
    Complete(TextRequest(doc), generate, parse, TextFailure)
  }

  /** `analyzeTenderFromPDF(base64PDF)`. */
  function AnalyzeTenderFromPdf(base64Pdf: string, generate: ModelRequest -> Awaited<string>,
                                parse: string -> Awaited<JsValue>): (r: Analysis)
    ensures r.Analyzed? <==> (generate(PdfRequest(base64Pdf)).Resolved?
                              && parse(Clean(generate(PdfRequest(base64Pdf)).value)).Resolved?)
    ensures r.Failed? ==> r.error != ""
  {
    Complete(PdfRequest(base64Pdf), generate, parse, PdfFailure)
  }

  // ----- Properties of the prompt and the requests -----

  /** The document is recovered from the text prompt: instructions and heading
      are a prefix, the document is the rest. */
  lemma PromptRoundTrip(doc: string)
    ensures |AnalysisPrompt + DocumentHeading| <= |TextPrompt(doc)|
    ensures TextPrompt(doc)[..|AnalysisPrompt|] == AnalysisPrompt
    ensures DocumentOf(TextPrompt(doc)) == doc
  {
    assert TextPrompt(doc) == (AnalysisPrompt + DocumentHeading) + doc;
  }

  /** Both paths name the same model and carry the same instructions: the PDF
      request is the attachment followed by exactly the instruction text, and
      the text request's only part starts with that same text. */
  lemma RequestsShareInstructions(doc: string, base64Pdf: string)
    ensures TextRequest(doc).model == PdfRequest(base64Pdf).model == ModelName
    ensures |PdfRequest(base64Pdf).parts| == 2
    ensures PdfRequest(base64Pdf).parts[0] == InlineData("application/pdf", base64Pdf)
    ensures PdfRequest(base64Pdf).parts[1] == TextPart(AnalysisPrompt)
    ensures |TextRequest(doc).parts| == 1 && TextRequest(doc).parts[0].TextPart?
    ensures AnalysisPrompt <= TextRequest(doc).parts[0].text
  {
    PromptRoundTrip(doc);
  }

  // ----- Properties of the cleaning -----

  /** Removal leaves a string free of the tag unchanged. */
  lemma {:induction false} RemoveAllFree(s: string, tag: string)
    requires tag != [] && Free(s, tag)
    ensures RemoveAll(s, tag) == s
    decreases |s|
  {
    if |s| > 0 {
      assert !OccursAt(s, tag, 0);
      assert !(tag <= s) by {
        if |tag| <= |s| { assert s[0..|tag|] == s[..|tag|]; }
      }
      FreeSlice(s, tag, 1, |s|);
      assert s[1..|s|] == s[1..];
      RemoveAllFree(s[1..], tag);
    }
  }

  /** A string without a backtick holds no tag that begins with one. */
  lemma NoTickFree(s: string, tag: string)
    requires '`' !in s && tag != [] && tag[0] == '`'
    ensures Free(s, tag)
  {
    forall k | 0 <= k && k + |tag| <= |s| ensures !OccursAt(s, tag, k) {
      assert s[k..k + |tag|][0] == s[k];
    }
  }

  /** Text before any backtick passes through the removal untouched. */
  lemma {:induction false} RemoveAllTickFreePrefix(a: string, b: string, tag: string)
    requires '`' !in a && tag != [] && tag[0] == '`'
    ensures RemoveAll(a + b, tag) == a + RemoveAll(b, tag)
    decreases |a|
  {
    if |a| > 0 {
      RemoveAllKeepsHead(a, b, tag);
      RemoveAllTickFreePrefix(a[1..], b, tag);
      assert a == [a[0]] + a[1..];
    } else {
      assert a + b == b;
    }
  }

  /** The first character of `a + b` is kept when it cannot start the tag. */
  lemma RemoveAllKeepsHead(a: string, b: string, tag: string)
    requires tag != [] && |a| > 0 && a[0] != tag[0]
    ensures RemoveAll(a + b, tag) == [a[0]] + RemoveAll(a[1..] + b, tag)
  {
    assert !(tag <= a + b) by {
      assert (a + b)[0] == a[0];
    }
    RemoveAllKeeps(a + b, tag);
    assert (a + b)[1..] == a[1..] + b;
  }

  /** Leading whitespace is dropped as a whole when the rest is not blank. */
  lemma {:induction false} TrimStartBlankPrefix(a: string, b: string)
    requires AllSpace(a)
    ensures TrimStart(a + b) == TrimStart(b)
    decreases |a|
  {
    if |a| > 0 {
      assert (a + b)[0] == a[0] && IsSpace(a[0]);
      assert (a + b)[1..] == a[1..] + b;
      TrimStartBlankPrefix(a[1..], b);
    } else {
      assert a + b == b;
    }
  }

  /** A character that does not start the tag is kept, and the scan moves on. */
  lemma RemoveAllKeeps(s: string, tag: string)
    requires tag != [] && |s| > 0 && !(tag <= s)
    ensures RemoveAll(s, tag) == [s[0]] + RemoveAll(s[1..], tag)
  {
  }

  /** Where no fence starts, the removal's output does not start with one. */
  lemma NoFenceAtStart(s: string)
    requires !(Fence <= s)
    ensures !OccursAt(RemoveAll(s, Fence), Fence, 0)
  {
    var r := RemoveAll(s, Fence);
    if 3 <= |r| {
      assert 3 <= |s|;
      RemoveAllKeeps(s, Fence);
      var R := RemoveAll(s[1..], Fence);
      assert r == [s[0]] + R;
      if s[0] != '`' {
        assert r[0..3][0] == s[0];
      } else if s[1] != '`' {
        assert !(Fence <= s[1..]) by { assert s[1..][0] == s[1]; }
        RemoveAllKeeps(s[1..], Fence);
        assert r[0..3][1] == s[1];
      } else {
        assert s[2] != '`' by { assert s[..3] != Fence; }
        assert !(Fence <= s[1..]) by { assert s[1..][1] == s[2]; }
        RemoveAllKeeps(s[1..], Fence);
        assert !(Fence <= s[2..]) by { assert s[2..][0] == s[2]; }
        RemoveAllKeeps(s[2..], Fence);
        assert s[1..][1..] == s[2..];
        assert r[0..3][2] == s[2];
      }
    }
  }

  /** After the second replacement no triple backtick is left anywhere: a
      character kept just before a removed fence is never a backtick, so no new
      fence can form across a removal. */
  lemma {:induction false} RemoveFenceLeavesNoFence(s: string)
    ensures Free(RemoveAll(s, Fence), Fence)
    decreases |s|
  {
    if |s| == 0 {
    } else if Fence <= s {
      RemoveFenceLeavesNoFence(TrimStart(s[3..]));
    } else {
      RemoveAllKeeps(s, Fence);
      var R := RemoveAll(s[1..], Fence);
      var r := [s[0]] + R;
      RemoveFenceLeavesNoFence(s[1..]);
      NoFenceAtStart(s);
      forall k | 1 <= k && k + 3 <= |r| ensures !OccursAt(r, Fence, k) {
        assert r[k..k + 3] == R[k - 1..k + 2];
        assert !OccursAt(R, Fence, k - 1);
      }
    }
  }

  /** The cleaned text holds no code fence and has no whitespace at either end. */
  lemma CleanIsFenceFreeAndTrimmed(raw: string)
    ensures Free(Clean(raw), Fence)
    ensures Clean(raw) == [] || (!IsSpace(Clean(raw)[0]) && !IsSpace(Clean(raw)[|Clean(raw)| - 1]))
  {
    var stripped := RemoveAll(RemoveAll(raw, JsonFence), Fence);
    RemoveFenceLeavesNoFence(RemoveAll(raw, JsonFence));
    var i, j := TrimIsMiddle(stripped);
    FreeSlice(stripped, Fence, i, j);
  }

  /** A reply without any fence is only trimmed. */
  lemma CleanUnfenced(raw: string)
    requires Free(raw, Fence)
    ensures Clean(raw) == Trim(raw)
  {
    assert Free(raw, JsonFence) by {
      forall k | 0 <= k && k + |JsonFence| <= |raw| ensures !OccursAt(raw, JsonFence, k) {
        assert !OccursAt(raw, Fence, k);
        assert raw[k..k + 7][..3] == raw[k..k + 3];
      }
    }
    RemoveAllFree(raw, JsonFence);
    RemoveAllFree(raw, Fence);
  }

  /** Text without a backtick followed by a closing fence loses the fence and
      nothing else. */
  lemma StripClosingFence(head: string)
    requires '`' !in head
    ensures RemoveAll(RemoveAll(head + Fence, JsonFence), Fence) == head
  {
    RemoveAllTickFreePrefix(head, Fence, JsonFence);
    assert Free(Fence, JsonFence);
    RemoveAllFree(Fence, JsonFence);
    RemoveAllTickFreePrefix(head, Fence, Fence);
    assert RemoveAll(Fence, Fence) == RemoveAll(TrimStart([]), Fence) == [];
  }

  /** The opening tag and the whitespace after it go in one step. */
  lemma StripOpeningFence(tail: string)
    ensures RemoveAll(JsonFence + "\n" + tail, JsonFence) == RemoveAll(TrimStart(tail), JsonFence)
  {
    var w := JsonFence + "\n" + tail;
    assert JsonFence <= w;
    assert w[|JsonFence|..] == "\n" + tail;
    TrimStartBlankPrefix("\n", tail);
  }

  /** What is left of the body and the closing fence after the opening tag's
      whitespace run is dropped. */
  lemma TrimStartBeforeFence(body: string)
    ensures AllSpace(body) ==> TrimStart(body + "\n" + Fence) == Fence
    ensures !AllSpace(body) ==> TrimStart(body + "\n" + Fence) == TrimStart(body) + "\n" + Fence
  {
    if AllSpace(body) {
      BlankBeforeFence(body);
    } else {
      assert body + "\n" + Fence == body + ("\n" + Fence);
      TrimStartAppend(body, "\n" + Fence);
    }
  }

  lemma BlankBeforeFence(body: string)
    requires AllSpace(body)
    ensures TrimStart(body + "\n" + Fence) == Fence
  {
    var blank := body + "\n";
    forall i | 0 <= i < |blank|
      ensures IsSpace(blank[i])
    {
      if i < |body| {
        assert blank[i] == body[i];
      }
    }
    TrimStartBlankPrefix(blank, Fence);
    assert !IsSpace(Fence[0]);
  }

  /** A body wrapped in a fence tagged json cleans to the same text as the bare
      body: the trimmed body. */
  lemma CleanFenceWrapped(body: string)
    requires '`' !in body
    ensures Clean(JsonFence + "\n" + body + "\n" + Fence) == Trim(body)
    ensures Clean(body) == Trim(body)
  {
    var tail := body + "\n" + Fence;
    var wrapped := JsonFence + "\n" + body + "\n" + Fence;
    assert wrapped == JsonFence + "\n" + tail;
    var head := if AllSpace(body) then [] else TrimStart(body) + "\n";
    assert AllSpace(body) ==> [] + Fence == Fence;
    assert '`' !in head;
    NoTickFree(body, Fence);
    CleanUnfenced(body);
    StripOpeningFence(tail);
    TrimStartBeforeFence(body);
    assert TrimStart(tail) == head + Fence;
    StripClosingFence(head);
    assert Clean(wrapped) == Trim(head);
    if AllSpace(body) {
      TrimEmptyIffAllSpace(body);
    } else {
      TrimAppendSpace(TrimStart(body), '\n');
      TrimAfterTrimStart(body);
    }
  }

  /** The tag match is case-sensitive: after "```JSON" only the bare fence is
      removed and the word JSON stays in the text handed to the parser. */
  lemma CleanKeepsUpperCaseTag(body: string)
    requires '`' !in body
    ensures Clean("```JSON" + body) == Trim("JSON" + body)
  {
    var s := "```JSON" + body;
    var rest := "JSON" + body;
    UpperTagHasNoJsonFence(body);
    RemoveAllFree(s, JsonFence);
    assert RemoveAll(s, Fence) == RemoveAll(TrimStart(rest), Fence) by {
      assert Fence <= s && s[3..] == rest;
    }
    assert TrimStart(rest) == rest by {
      assert !IsSpace(rest[0]);
    }
    assert '`' !in rest by {
      assert rest == "JSON" + body;
    }
    NoTickFree(rest, Fence);
    RemoveAllFree(rest, Fence);
  }

  /** "```JSON" + body holds no lower-case tag: the only backticks are the
      first three, followed by "J". */
  lemma UpperTagHasNoJsonFence(body: string)
    requires '`' !in body
    ensures Free("```JSON" + body, JsonFence)
  {
    var s := "```JSON" + body;
    forall k | 0 <= k && k + 7 <= |s|
      ensures !OccursAt(s, JsonFence, k)
    {
      if k < 3 {
        assert s[k..k + 7][3 - k] == s[3];
      } else {
        assert s[k..k + 7][0] == s[k];
        assert k < 7 || s[k] == body[k - 7];
      }
    }
  }
}
