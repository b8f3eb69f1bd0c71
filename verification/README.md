# Bidlyze tender analysis: a verified model of its core rules

Bidlyze takes a tender document (PDF, DOCX or TXT) and returns a structured
analysis: summary, requirements, compliance checklist, risk flags, key dates,
evaluation criteria, financial requirements and a bid/no-bid score. A hosted
generative model does the analysis itself. What this project models and proves
is the deterministic code around that call:

- the upload endpoint's guard chain: file presence, extension dispatch, empty
  text, truncation, and how results map to statuses;
- the cleaning of the model's reply and how prompts and requests are built;
- the upload page's file checks and its state (`file`, `error`, `loading`,
  `dragActive`);
- the report page's colouring, fallbacks and section visibility, and how it
  loads the stored result;
- the login page's sign-up checks and its state (`error`, `message`,
  `loading`, `tab`).

Files (all modules sit at the top level and import one another):

| file | module | models |
|---|---|---|
| strings.dfy | `JsStrings` | `trim` and the `\s` class (one set of characters), `split(".").pop()`, ASCII `toLowerCase`, `/…$/i` suffixes |
| values.dfy | `JsValues` | JSON values plus `undefined`, truthiness, `a \|\| b`, property access, ToString, ToNumber, awaited results |
| gemini.dfy | `Gemini` | lib/gemini.js |
| route.dfy | `AnalyzeRoute` | app/api/analyze/route.js |
| home.dfy | `HomePage` | app/page.js (class `Home`) |
| report.dfy | `Report` | app/analyze/page.js |
| login.dfy | `Login` | app/login/page.js (class `LoginPage`) |

How the modules are built:

- **Foreign calls are parameters.** The form read, the extractors, the model
  call, `JSON.parse`, `fetch` and the auth provider each appear as a function
  argument. Such a function returns an `Awaited` value: what the call resolved
  to, or the message of the exception it threw.
- **The endpoint records its calls.** Its result lists the foreign calls it
  made, in order. This is how "nothing else runs" is stated: the extractor and
  the analyzer are never reached on an early return.
- **Pages with state are classes.** The two pages whose handlers update state
  step by step are classes with those fields. Each setter call is logged in a
  ghost `writes` sequence, so the order of updates is part of each handler's
  contract.
- **Each page class keeps an invariant.** For the upload page, a file it holds
  has passed `validateFile`. For the login page, an error and the confirmation
  message are never shown together, and the confirmation appears only on the
  sign-up tab.
- **Each async handler is one step.** A handler runs from its start to its
  end with the awaited reply as a parameter. No other event runs while the
  reply is pending. The login invariant holds only under this assumption:
  in the program, a tab click during a pending sign-up can break it (see
  "## Left out").

What the code does not do:

- **No schema validation.** The reply is parsed as whatever JSON remains
  after cleaning. No field of it is checked.
- **No gates in the endpoint.** There are no quota or credential checks
  (no 401 or 403), no size limit on the server, and PDFs are not forwarded
  to the model as binary attachments. The endpoint extracts PDF text itself
  and calls only the text path (`analyzeTender`).
- **Fences are removed everywhere.** Every occurrence of a fence is
  removed, wherever it appears, not only at the start and end of the reply.

Several behaviours of the code are proved as stated lemmas:

- A file the page accepts for its MIME type alone can still be refused by
  the endpoint, whose dispatch looks only at the name.
- A name with no dot is its own extension.
- The number 0 as `bidScore` is shown as the text "0".
- A severity equal to an inherited member of a plain object, such as
  "constructor", gets that member's text as its class rather than the grey
  fallback.
- The model's "Not specified" sentinel is shown twice in the estimated-value
  card.
- A stored result that parses to a falsy value leaves the spinner on forever.
- An analysis that is `null` passes the endpoint but makes the report page
  throw.

## Model

| member | source | states |
|---|---|---|
| JsStrings.TrimStart | lib/gemini.js:79-80 | a greedy `\s*` removes exactly the leading whitespace run: the result is a suffix, everything cut is whitespace, and the result does not start with whitespace |
| JsStrings.TrimEnd | lib/gemini.js:81 | removes exactly the trailing whitespace run: the result is a prefix, everything cut is whitespace, and the result does not end in whitespace |
| JsStrings.TrimIsMiddle | lib/gemini.js:81 | `trim()` yields a middle slice of the input: only whitespace is cut on either side, and no whitespace is left at either end |
| JsStrings.TrimEmptyIffAllSpace | app/api/analyze/route.js:46 | `text.trim().length === 0` holds exactly when every character of the text is whitespace |
| JsStrings.TrimStartAppend | lib/gemini.js:81 | removing leading whitespace distributes over a concatenation whose left part is not blank |
| JsStrings.TrimAppendSpace | lib/gemini.js:81 | whitespace appended to a string does not change its trim |
| JsStrings.LowerAscii | app/api/analyze/route.js:20 | a capital letter becomes the lower-case letter at the same place in the alphabet; every other character is kept; no capital remains |
| JsStrings.ToLower | app/api/analyze/route.js:20 | lower-casing keeps the length and maps each character in place as `LowerAscii` does |
| JsStrings.ToLowerIdempotent | app/api/analyze/route.js:20 | lower-cased text holds no capital, and lower-casing it again changes nothing |
| JsStrings.AfterLast | app/api/analyze/route.js:20 | the last element of `split(sep)` is the longest suffix without `sep`; when it is not the whole string, the character before it is `sep` |
| JsStrings.AfterLastOf | app/api/analyze/route.js:20 | for `p + sep + e` with no `sep` in `e`, the last element is exactly `e` |
| JsStrings.FreeSlice | lib/gemini.js:80 | a slice of a string with no occurrence of a tag has none either |
| JsValues.Get | app/analyze/page.js:107-108 | a property read yields a value other than `undefined` only for an own key of an object, and then the stored value |
| JsValues.Or | app/analyze/page.js:77 | `a \|\| b` is `a` when `a` is truthy and `b` otherwise |
| JsValues.ToNumber | app/analyze/page.js:8-10 | a number converts to itself, and `undefined` converts to NaN |
| Gemini.RemoveAll | lib/gemini.js:79-80 | a global replace of a tag plus following whitespace never lengthens the text |
| Gemini.RemoveAllFree | lib/gemini.js:79-80 | the replace leaves a text with no occurrence of the tag unchanged |
| Gemini.RemoveFenceLeavesNoFence | lib/gemini.js:80 | after the second replace, no triple backtick remains anywhere in the text |
| Gemini.CleanIsFenceFreeAndTrimmed | lib/gemini.js:77-83 | the text handed to `JSON.parse` contains no code fence and has no whitespace at either end |
| Gemini.CleanUnfenced | lib/gemini.js:78-81 | a reply without any triple backtick is only trimmed |
| Gemini.CleanFenceWrapped | lib/gemini.js:78-81 | a backtick-free body wrapped as "```json\n" + body + "\n```" cleans to `trim(body)`, the same as the bare body |
| Gemini.CleanKeepsUpperCaseTag | lib/gemini.js:79-80 | the tag match is case-sensitive: "```JSON" + body cleans to `trim("JSON" + body)` |
| Gemini.StripClosingFence | lib/gemini.js:79-80 | a backtick-free head followed by a closing fence loses the fence and nothing else |
| Gemini.StripOpeningFence | lib/gemini.js:79 | the "```json" tag and the whitespace after it go in one step |
| Gemini.PromptRoundTrip | lib/gemini.js:89-92 | the text prompt starts with the instructions, and the document is recovered exactly as its tail after the heading |
| Gemini.RequestsShareInstructions | lib/gemini.js:110-120 | both paths name the same model; the PDF request is the inline PDF part followed by exactly the instruction text, and the text request's single part starts with that same text |
| Gemini.Complete | lib/gemini.js:94-105 | the result is a success exactly when the model call and the parse both succeed, and it carries the parsed data; a thrown error becomes a failure whose message is the exception's message or the fallback, and is never empty |
| Gemini.AnalyzeTender | lib/gemini.js:85-106 | `analyzeTender` succeeds exactly when the model call on the text prompt and the parse of its cleaned reply both succeed; any failure has a non-empty error |
| Gemini.AnalyzeTenderFromPdf | lib/gemini.js:108-132 | the same for `analyzeTenderFromPDF` on the two-part PDF request |
| AnalyzeRoute.Extension | app/api/analyze/route.js:20 | the extension contains no dot, is the lower-cased tail of the name, and is preceded by a dot unless it is the whole name |
| AnalyzeRoute.ExtensionAfterLastDot | app/api/analyze/route.js:20 | for `stem + "." + ext` with no dot in `ext`, the extension is `ext` lower-cased |
| AnalyzeRoute.UpperCaseExtension | app/api/analyze/route.js:20 | "A.Tender.PDF" is dispatched as pdf |
| AnalyzeRoute.NameWithoutDot | app/api/analyze/route.js:20 | a name without a dot is its own extension: "txt" is dispatched as text |
| AnalyzeRoute.TrailingDot | app/api/analyze/route.js:20 | a name ending in "." has an empty extension and is unsupported |
| AnalyzeRoute.OnlyLastExtension | app/api/analyze/route.js:20 | "archive.pdf.zip" is unsupported: only the last extension counts |
| AnalyzeRoute.KindOf | app/api/analyze/route.js:24-44 | pdf, docx and txt map to their own extractor, each exactly for its extension; everything else is unsupported |
| AnalyzeRoute.Truncate | app/api/analyze/route.js:57 | the forwarded text is the prefix of length min(length, 500000) |
| AnalyzeRoute.Post | app/api/analyze/route.js:7-16 | a missing or empty file entry gives 400 "No file uploaded" with no call made; a failed form read or a non-file entry gives 500 with the generic message; status 200 occurs exactly with a success body, and only 200, 400 and 500 occur |
| AnalyzeRoute.HandleUpload | app/api/analyze/route.js:18-44 | an unsupported extension gives 400 with the unsupported message before any call; a supported one calls its extractor first |
| AnalyzeRoute.HandleText | app/api/analyze/route.js:46-74 | a thrown extractor gives the generic 500. Missing or blank text gives 400 without calling the analyzer. Otherwise the analyzer is called exactly once, on the truncated text, and its outcome decides the response: a thrown exception gives the generic 500, a failure's message passes through unchanged as a 500, and an analysis gives 200 echoing the upload's name and size, the truncated length and the analyzer's data |
| AnalyzeRoute.ToJs | app/api/analyze/route.js:61-74 | the JSON body: `success` is true exactly for a success; a failure has only `success` and `error`; a success has exactly the five echoed fields |
| AnalyzeRoute.WithTextAnalyzer | app/api/analyze/route.js:57-59 | with `analyzeTender` as the analyzer, the document reaching the model is the truncated text (at most 500000 characters); the request succeeds exactly when the model call and the parse do, and every failure message is non-empty |
| HomePage.ValidateFile | app/page.js:64-71 | no problem exactly when a file is present, its type is accepted and its size is at most 50 MiB; otherwise the message of the first failing check, in the order presence, type, size |
| HomePage.SizeCeilingBoundary | app/page.js:69 | exactly 50·1024·1024 bytes passes; one byte more gets the too-large message |
| HomePage.FormatSize | app/page.js:123-127 | the amount times the unit size is the byte count; B is chosen exactly below 1024; KB amounts lie in [1, 1024); MB amounts are at least 1 |
| HomePage.Home.constructor | app/page.js:57-60 | no file, an empty error, not loading, no drag highlight |
| HomePage.Home.HandleFile | app/page.js:73-82 | clears the error first; an invalid file leaves its message and no file, and a valid one is kept with an empty error; the held file always passes validation |
| HomePage.Home.HandleDrop | app/page.js:84-89 | the highlight always goes off first; with no dropped file nothing else changes, otherwise the first file is handled as by `handleFile`, with the same writes in the same order |
| HomePage.Home.HandleDrag | app/page.js:91-95 | dragenter and dragover set the highlight, dragleave clears it (one write each), and any other event changes nothing |
| HomePage.Home.HandleAnalyze | app/page.js:97-121 | without a file nothing happens. Otherwise it sets loading, then clears the error. A thrown request shows the network message and resets loading. A failure body shows its error, or the fallback when that is empty, and resets loading. A success stores the response's JSON and stays loading |
| HomePage.AcceptedSuffixIsDispatched | app/page.js:66 | a name the page accepts by its suffix is dispatched by the endpoint to an extractor |
| HomePage.SuffixIsExtension | app/page.js:66 | a name ending in "." + ext, in any case, has extension ext at the endpoint |
| HomePage.MimeOnlyAcceptanceRefusedByEndpoint | app/page.js:66 | a PDF-typed file within the size ceiling whose name has no dot and is not itself "pdf", "docx" or "txt" passes the page's check, yet the endpoint answers 400 unsupported without any call |
| Report.ScoreColor | app/analyze/page.js:7-12 | green exactly for scores ≥ 70, yellow exactly for 40 ≤ score < 70, red exactly for scores below 40 or NaN: the three bands partition all inputs |
| Report.ScoreColorMonotone | app/analyze/page.js:7-12 | a higher score never gets a worse colour |
| Report.ScoreOfNonNumber | app/analyze/page.js:8-10 | a missing or non-numeric score is shown red |
| Report.RecommendationBadge | app/analyze/page.js:21-34 | the label is "BID" exactly when the value is the string "BID", and "NO-BID" for every other value; green for BID and red otherwise |
| Report.SeverityStyle | app/analyze/page.js:36-47 | HIGH, MEDIUM and LOW get red, yellow and green exactly; a key naming an Object.prototype member gets that member; every other key gets grey |
| Report.SeverityCorners | app/analyze/page.js:37-43 | "high" and `undefined` get grey; "constructor" does not |
| Report.CardValue | app/analyze/page.js:77 | a card always shows something truthy: its value when truthy, "Not specified" otherwise |
| Report.EstimatedValue | app/analyze/page.js:165 | the value is truthy exactly when `estimatedValue` is, and is then the currency (or "") + " " + the amount |
| Report.EstimatedValueWithoutCurrency | app/analyze/page.js:165 | with no currency the shown text is " " followed by the amount |
| Report.EstimatedValueSentinel | app/analyze/page.js:165 | sentinel values in both fields show "Not specified Not specified" |
| Report.Section | app/analyze/page.js:194-214 | shown exactly for a non-empty array with no `null` item, with the array's length in the title and as the count, and with a flag telling whether every displayed item field can be rendered; a non-empty string, a positive `length` object or an array holding `null` throws; other values hide it |
| Report.Sections | app/analyze/page.js:192-292 | the five list sections in page order, read from their keys, each with the fields its items display; only the first starts open |
| Report.BadgesFor | app/analyze/page.js:156-157 | the badges appear exactly when `bidScore` is truthy, printing its score and coloured from its score and recommendation; the number 0 shows as text |
| Report.Cards | app/analyze/page.js:162-171 | eight cards in page order, all showing a truthy value, the third being the estimated value |
| Report.View | app/analyze/page.js:107-303 | the report shows the file name, a truthy title ("Tender Analysis" when the project name is falsy), the badges, the cards, the description and reasoning blocks exactly when truthy, the sections, and the four financial cards exactly when the financial block is truthy |
| Report.Render | app/analyze/page.js:99-214 | spinner exactly for a falsy result. The page throws exactly when the result is truthy and the analysis is missing, a section's items cannot be built, or a value rendered on first display is a plain object (title, file name, score, cards, text blocks, fields of the open section's items). Otherwise it shows `View` |
| Report.ObjectCardCrashes | app/analyze/page.js:73-163 | an issuing authority given as an object makes the page throw |
| Report.NullKeyDateCrashes | app/analyze/page.js:259-270 | a `null` key date makes its section, and the page, throw |
| Report.ClosedSectionDefersCrash | app/analyze/page.js:49-270 | an object in an item of a closed section does not stop the first render; the section is listed with items that cannot be rendered |
| Report.LoadStored | app/analyze/page.js:86-97 | redirect exactly when the entry is absent, empty or unparsable; otherwise `result` is set to the parsed value |
| Report.FalsyStoredValueSpins | app/analyze/page.js:86-105 | an entry parsing to a falsy value neither redirects nor renders: the spinner stays |
| Report.StoredSuccessRenders | app/analyze/page.js:107-153 | what the upload page stores after a success never leaves the spinner on; a null analysis throws; a report, when it renders, names the uploaded file |
| Report.NullAnalysisCrashes | app/analyze/page.js:107-108 | a success whose analysis is `null` makes the report page throw |
| Login.SignUpProblem | app/login/page.js:61-69 | no problem exactly when the two passwords match and have at least 6 characters; a mismatch is reported first, then shortness |
| Login.SignUpCheckBoundaries | app/login/page.js:61-69 | a short mismatched pair reports the mismatch; six characters pass; five do not |
| Login.LoginPage.constructor | app/login/page.js:31-37 | sign-in tab, empty fields and banners, not loading |
| Login.LoginPage.EditFields | app/login/page.js:137 | the inputs take the typed values and nothing else changes |
| Login.LoginPage.SelectTab | app/login/page.js:105 | sets the tab, then clears the error and the message |
| Login.LoginPage.HandleSignIn | app/login/page.js:40-54 | clears the error and sets loading, then sends the typed credentials. A refusal shows its message and resets loading. Success navigates and stays loading. The message is untouched |
| Login.LoginPage.HandleSignUp | app/login/page.js:56-83 | clears the error and the message. A failed check sets its message and returns without setting loading or calling the provider. Otherwise it sets loading and sends the credentials. A refusal then shows its message, and success shows the confirmation; either way loading is reset |

## Left out

- **Strings.** JavaScript strings are UTF-16 code units; here they are
  sequences of characters. `password.length`, the 500000-character cut and
  `split` are counted per character, so a text with characters outside the
  Basic Multilingual Plane is measured differently.
- **Lower-casing.** `toLowerCase` is modelled on ASCII letters only. The
  extension check is exact only for ASCII names. The page's `/…$/i` test,
  a regular expression without the u flag, folds ASCII letters only anyway.
- **Numbers.** Floating point is not modelled. Number-to-text and
  text-to-number conversion are parameters (`Env`). JSON numbers are exact
  reals. File sizes are natural numbers.
- HomePage.FormatSize: gives the amount and the unit, not the text that
  `toFixed(1)` prints.
- **Objects with own `valueOf` or `toString` keys.** JSON objects that
  carry these keys make ToPrimitive throw. The model converts them as plain
  objects.
- **React rendering.** JSX, CSS classes and markup are left out, and so is
  the text React prints for numbers, booleans and arrays. The exception is
  the number 0 in the badge slot. Whether a value can be rendered at all is
  modelled (a plain object, or an array holding one, makes React throw).
  Only the first render is modelled. Opening and closing a section is not
  modelled: a section records whether its items would render once opened,
  and the financial cards are listed without a check.
- Login.LoginPage.HandleSignUp: modelled as one step, from the submit to the
  reply, with no event in between. In the program the tab buttons stay
  active while `signUp` is pending. Switching to the sign-in tab then, and
  receiving an accepted reply, shows the confirmation on the sign-in tab.
  A refused sign-in after that shows the error beside the confirmation.
  `LoginPage.Valid` does not hold across such interleavings.
- Login.LoginPage.HandleSignIn: modelled as one step with no event in
  between. In the program the tab buttons and the inputs stay active while
  `signInWithPassword` is pending. Its reply then writes `error` and
  `loading` on whatever tab is shown.
- HomePage.Home.HandleAnalyze: modelled as one step with no event in
  between. In the program a new file can be chosen or dropped while `fetch`
  is pending. The reply then sets `error` and `loading` for the newly held
  file. The request still carries the file held when it started.
- **Duplicate submissions.** Buttons disabled while loading, and the
  browser's `required` and `type="email"` checks, are not modelled. The
  handlers assume nothing about them.
- **Foreign calls and I/O** are parameters or omitted: `request.formData()`,
  the PDF and DOCX extractors and `file.text()`, the generative model client,
  `JSON.parse`, `fetch`, `sessionStorage`, router navigation (an output
  flag), the auth provider, the JSON export through Blob and URL, and
  console logging.
- **Hosting and theming.** `maxDuration` is not modelled. lib/theme.js,
  lib/useAuth.js and app/layout.js are not part of this model.
- **The endpoint's analyzer.** The endpoint is modelled with any analyzer;
  `WithTextAnalyzer` instantiates it with `analyzeTender`. The PDF path
  (`analyzeTenderFromPDF`) is modelled but the endpoint never calls it.
- **Stored JSON.** The stored result is modelled as the response's JSON
  value. The model assumes that serialising it and parsing it back yields
  the same value.
