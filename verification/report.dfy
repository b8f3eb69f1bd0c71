/** The report page (app/analyze/page.js): loading the stored result and what
    the page shows for it. Rendering is reduced to the decisions the page
    takes: which colour a badge gets, which text a card shows, which sections
    appear and with what count, and whether rendering throws. */
module Report {
  import opened JsStrings
  import opened JsValues
  import AnalyzeRoute

  const NotSpecified: string := "Not specified"
  const DefaultTitle: string := "Tender Analysis"

  /** The colour families of the page's badges. */
  datatype Color = Green | Yellow | Red | Grey

  function Rank(c: Color): nat {
    match c
    case Red => 0
    case Yellow => 1
    case Green => 2
    case Grey => 0
  }

  // ----- Badges -----

  /** `ScoreBadge`'s colour for `score >= 70` / `score >= 40`; a comparison
      with NaN is false, so a score that is not a number is red. */
  function ScoreColor(score: Num): (c: Color)
    ensures c != Grey
    ensures c == Green <==> score.Finite? && score.r >= 70.0
    ensures c == Yellow <==> score.Finite? && 40.0 <= score.r < 70.0
    ensures c == Red <==> score.NaN? || score.r < 40.0
  {
    if AtLeast(score, 70.0) then Green
    else if AtLeast(score, 40.0) then Yellow
    else Red
  }

  /** A higher score never gets a worse colour. */
  lemma ScoreColorMonotone(x: real, y: real)
    requires x <= y
    ensures Rank(ScoreColor(Finite(x))) <= Rank(ScoreColor(Finite(y)))
  {
  }

  /** A missing score (`undefined`) is shown red; so is one whose text does
      not parse as a number. */
  lemma ScoreOfNonNumber(text: string, env: Env)
    requires env.parseNumber(text) == NaN
    ensures ScoreColor(ToNumber(Undefined, env)) == Red
    ensures ScoreColor(ToNumber(Str(text), env)) == Red
  {
  }

  /** `RecommendationBadge`: its label and colour. */
  datatype Recommendation = Recommendation(text: string, color: Color)

  function RecommendationBadge(recommendation: JsValue): (b: Recommendation)
    ensures b.text == "BID" <==> recommendation == Str("BID")
    ensures b.text in {"BID", "NO-BID"}
    ensures b.color == (if b.text == "BID" then Green else Red)
  {
    if recommendation == Str("BID") then Recommendation("BID", Green)
    else Recommendation("NO-BID", Red)
  }

  /** The properties every plain object inherits from Object.prototype
      (sections 20.1.3 and B.2.2 of ECMA-262): a lookup `colors[k]` with one of
      these keys finds the inherited member, which is truthy. */
  const ObjectPrototypeKeys: set<string> := {
    "constructor", "hasOwnProperty", "isPrototypeOf", "propertyIsEnumerable",
    "toLocaleString", "toString", "valueOf", "__proto__",
    "__defineGetter__", "__defineSetter__", "__lookupGetter__", "__lookupSetter__"
  }

  /** The class a `SeverityBadge` gets: one of its palette, or the text of an
      inherited member that `colors[severity]` finds. */
  datatype Style = Palette(color: Color) | PrototypeMember(name: string)

  /** `colors[severity] || grey`, the key being the string form of `severity`. */
  function SeverityStyle(severity: JsValue, env: Env): (s: Style)
    ensures s == Palette(Red) <==> ToStr(severity, env) == "HIGH"
    ensures s == Palette(Yellow) <==> ToStr(severity, env) == "MEDIUM"
    ensures s == Palette(Green) <==> ToStr(severity, env) == "LOW"
    ensures s.PrototypeMember? <==> ToStr(severity, env) in ObjectPrototypeKeys
    ensures s == Palette(Grey) <==>
              ToStr(severity, env) !in {"HIGH", "MEDIUM", "LOW"} && ToStr(severity, env) !in ObjectPrototypeKeys
  {
    var key := ToStr(severity, env);
    if key == "HIGH" then Palette(Red)
    else if key == "MEDIUM" then Palette(Yellow)
    else if key == "LOW" then Palette(Green)
    else if key in ObjectPrototypeKeys then PrototypeMember(key)
    else Palette(Grey)
  }

  /** A severity spelled in lower case is not recognised, and one that names an
      inherited member of a plain object is not given the grey fallback. */
  lemma SeverityCorners(env: Env)
    ensures SeverityStyle(Str("high"), env) == Palette(Grey)
    ensures SeverityStyle(Undefined, env) == Palette(Grey)
    ensures SeverityStyle(Str("constructor"), env) == PrototypeMember("constructor")
  {
    assert "high" != "HIGH";
  }

  // ----- Cards -----

  /** What an `InfoCard` shows: its value, or "Not specified" when the value
      is falsy. */
  function CardValue(value: JsValue): (shown: JsValue)
    ensures Truthy(shown)
    ensures Truthy(value) ==> shown == value
    ensures !Truthy(value) ==> shown == Str(NotSpecified)
  {
    Or(value, Str(NotSpecified))
  }

  /** The estimated-value card's value: `currency value` when the estimated
      value is truthy, `null` otherwise. */
  function EstimatedValue(summary: JsValue, env: Env): (v: JsValue)
    ensures Truthy(v) <==> Truthy(Get(summary, "estimatedValue"))
    ensures Truthy(v) ==>
              v == Str(ToStr(Or(Get(summary, "currency"), Str("")), env) + " "
                       + ToStr(Get(summary, "estimatedValue"), env))
  {
    var amount := Get(summary, "estimatedValue");
    if Truthy(amount) then Str(ToStr(Or(Get(summary, "currency"), Str("")), env) + " " + ToStr(amount, env))
    else Null
  }

  /** Without a currency the text starts with the separating space. */
  lemma EstimatedValueWithoutCurrency(summary: JsValue, env: Env)
    requires Truthy(Get(summary, "estimatedValue")) && !Truthy(Get(summary, "currency"))
    ensures CardValue(EstimatedValue(summary, env)) == Str(" " + ToStr(Get(summary, "estimatedValue"), env))
  {
    assert ToStr(Str(""), env) == "";
  }

  /** The analysis instructions ask for "Not specified" where a field is
      missing; the page then shows that sentinel twice in the value card. */
  lemma EstimatedValueSentinel(env: Env)
    ensures var summary := Obj(map["currency" := Str(NotSpecified), "estimatedValue" := Str(NotSpecified)]);
            CardValue(EstimatedValue(summary, env)) == Str("Not specified Not specified")
  {
  }

  // ----- Sections -----

  /** Whether React can render a value as a child: text, numbers, booleans,
      `null` and `undefined` can, and so can an array of such values; a plain
      object makes React throw. */
  predicate Renderable(v: JsValue)
    decreases v
  {
    match v
    case Obj(_) => false
    case Arr(items) => forall i | 0 <= i < |items| :: Renderable(items[i])
    case _ => true
  }

  /** `null` or `undefined`: reading a property of it throws a TypeError. */
  predicate Nullish(v: JsValue) {
    v.Null? || v.Undefined?
  }

  /** A collapsible list section: hidden, shown with its title, item count,
      initial open state and whether its items' fields can all be rendered,
      or throwing while the page builds its items. */
  datatype SectionView = Hidden | Shown(title: string, count: nat, open: bool, itemsRenderable: bool) | Throws

  /** `list?.length > 0 && <Section title={`label (n)`}>…{list.map(…)}`, where
      each item shows the fields `fields`. Only arrays have a `map` method: a
      non-empty string, or an object whose own `length` compares above zero,
      makes building the items throw, and so does an array holding `null`,
      whose fields the callback reads. The items are built whether or not the
      section is open, but React renders them only while it is open. */
  function Section(heading: string, list: JsValue, defaultOpen: bool, fields: seq<string>, env: Env): (s: SectionView)
    ensures s.Shown? <==> list.Arr? && |list.items| > 0 && forall i | 0 <= i < |list.items| :: !Nullish(list.items[i])
    ensures s.Throws? <==>
              || (list.Str? && list.s != "")
              || (list.Obj? && ToNumber(Get(list, "length"), env).Finite? && ToNumber(Get(list, "length"), env).r > 0.0)
              || (list.Arr? && exists i | 0 <= i < |list.items| :: Nullish(list.items[i]))
    ensures s.Shown? ==> s.count == |list.items| && s.open == defaultOpen
                         && s.title == heading + " (" + env.numberText(|list.items| as real) + ")"
    ensures s.Shown? ==> (s.itemsRenderable <==>
              forall i, j | 0 <= i < |list.items| && 0 <= j < |fields| :: Renderable(Get(list.items[i], fields[j])))
    ensures list.Undefined? || list.Null? || list.Bool? || list.Number? ==> s == Hidden
  {
    match list
    case Arr(items) =>
      if |items| == 0 then Hidden
      else if exists i | 0 <= i < |items| :: Nullish(items[i]) then Throws
      else
        var renderable := forall i, j | 0 <= i < |items| && 0 <= j < |fields| :: Renderable(Get(items[i], fields[j]));
        Shown(heading + " (" + env.numberText(|items| as real) + ")", |items|, defaultOpen, renderable)
    case Str(text) => if |text| > 0 then Throws else Hidden
    case Obj(_) =>
      var length := ToNumber(Get(list, "length"), env);
      if length.Finite? && length.r > 0.0 then Throws else Hidden
    case _ => Hidden
  }

  /** The five list sections, in page order, with the one open at first and
      the fields each item shows (`mandatory` and `critical` only decide
      whether a tag appears). */
  const ListKeys: seq<string> := ["requirements", "complianceChecklist", "riskFlags", "keyDates", "evaluationCriteria"]
  const ListLabels: seq<string> := ["Requirements", "Compliance Checklist", "Risk Flags", "Key Dates", "Evaluation Criteria"]
  const ItemFields: seq<seq<string>> := [
    ["category", "priority", "requirement"],
    ["item", "category"],
    ["risk", "severity", "recommendation"],
    ["event", "date"],
    ["criterion", "weight", "details"]
  ]

  function Sections(analysis: JsValue, env: Env): (s: seq<SectionView>)
    ensures |s| == |ListKeys|
    ensures forall i | 0 <= i < |s| :: s[i] == Section(ListLabels[i], Get(analysis, ListKeys[i]), i == 0, ItemFields[i], env)
  {
    seq(|ListKeys|, i requires 0 <= i < |ListKeys| =>
      Section(ListLabels[i], Get(analysis, ListKeys[i]), i == 0, ItemFields[i], env))
  }

  // ----- The page -----

  /** The badge slot: `bidScore && <ScoreBadge/>` and the recommendation
      likewise. A falsy `bidScore` hides the badges, but the number 0 is
      rendered as the text "0" in each of the two places. `score` is the
      value the score badge prints. */
  datatype Badges = NoBadges | ZeroText | Badges(score: JsValue, scoreColor: Color, recommendation: Recommendation)

  function BadgesFor(bidScore: JsValue, env: Env): (b: Badges)
    ensures b.Badges? <==> Truthy(bidScore)
    ensures b.ZeroText? <==> bidScore == Number(0.0)
    ensures b.Badges? ==> b.score == Get(bidScore, "score")
                          && b.scoreColor == ScoreColor(ToNumber(Get(bidScore, "score"), env))
                          && b.recommendation == RecommendationBadge(Get(bidScore, "recommendation"))
  {
    if Truthy(bidScore) then
      var score := Get(bidScore, "score");
      Badges(score, ScoreColor(ToNumber(score, env)), RecommendationBadge(Get(bidScore, "recommendation")))
    else if bidScore == Number(0.0) then ZeroText
    else NoBadges
  }

  const CardKeys: seq<string> := [
    "issuingAuthority", "tenderReference", "estimatedValue", "submissionDeadline",
    "projectDuration", "location", "sector", "currency"
  ]
  const FinancialKeys: seq<string> := ["bidBond", "performanceBond", "minimumTurnover", "otherFinancial"]

  /** The quick-information grid, in page order; the third card is the
      estimated value. */
  function Cards(summary: JsValue, env: Env): (cards: seq<JsValue>)
    ensures |cards| == |CardKeys|
    ensures forall i | 0 <= i < |cards| :: Truthy(cards[i])
    ensures cards[2] == CardValue(EstimatedValue(summary, env))
    ensures forall i | 0 <= i < |cards| && i != 2 :: cards[i] == CardValue(Get(summary, CardKeys[i]))
  {
    [ CardValue(Get(summary, "issuingAuthority")),
      CardValue(Get(summary, "tenderReference")),
      CardValue(EstimatedValue(summary, env)),
      CardValue(Get(summary, "submissionDeadline")),
      CardValue(Get(summary, "projectDuration")),
      CardValue(Get(summary, "location")),
      CardValue(Get(summary, "sector")),
      CardValue(Get(summary, "currency")) ]
  }

  /** What a report shows. */
  datatype ReportView = ReportView(
    title: JsValue,
    fileName: JsValue,
    badges: Badges,
    cards: seq<JsValue>,
    description: Option<JsValue>,
    reasoning: Option<JsValue>,
    sections: seq<SectionView>,
    financial: Option<seq<JsValue>>)

  /** The page for a result: the spinner while `result` is falsy, a render that
      throws, or the report. */
  datatype Page = Spinner | Crashed | Rendered(view: ReportView)

  /** `text && <block>{text}</block>`. */
  function Block(text: JsValue): Option<JsValue>
  {
    if Truthy(text) then Some(text) else None
  }

  /** The report the page builds from the fields of `result`. */
  function View(result: JsValue, env: Env): (v: ReportView)
    ensures var analysis := Get(result, "analysis");
            var summary := Get(analysis, "summary");
            && v.fileName == Get(result, "fileName")
            && Truthy(v.title)
            && (!Truthy(Get(summary, "projectName")) ==> v.title == Str(DefaultTitle))
            && (Truthy(Get(summary, "projectName")) ==> v.title == Get(summary, "projectName"))
            && v.badges == BadgesFor(Get(analysis, "bidScore"), env)
            && v.cards == Cards(summary, env)
            && (v.description.Some? <==> Truthy(Get(summary, "briefDescription")))
            && (v.description.Some? ==> v.description.value == Get(summary, "briefDescription"))
            && (v.reasoning.Some? <==> Truthy(Get(Get(analysis, "bidScore"), "reasoning")))
            && (v.reasoning.Some? ==> v.reasoning.value == Get(Get(analysis, "bidScore"), "reasoning"))
            && v.sections == Sections(analysis, env)
            && (v.financial.Some? <==> Truthy(Get(analysis, "financialRequirements")))
            && (v.financial.Some? ==>
                  && |v.financial.value| == |FinancialKeys|
                  && forall i | 0 <= i < |FinancialKeys| ::
                       v.financial.value[i] == CardValue(Get(Get(analysis, "financialRequirements"), FinancialKeys[i])))
  {
    var analysis := Get(result, "analysis");
    var summary := Get(analysis, "summary");
    var bidScore := Get(analysis, "bidScore");
    var financial := Get(analysis, "financialRequirements");
    ReportView(
      Or(Get(summary, "projectName"), Str(DefaultTitle)),
      Get(result, "fileName"),
      BadgesFor(bidScore, env),
      Cards(summary, env),
      Block(Get(summary, "briefDescription")),
      Block(Get(bidScore, "reasoning")),
      Sections(analysis, env),
      if Truthy(financial) then Some(seq(4, i requires 0 <= i < 4 => CardValue(Get(financial, FinancialKeys[i]))))
      else None)
  }

  /** Every value the first render puts on screen can be rendered: the title,
      the file name, the printed score, the cards, the two text blocks and the
      item fields of the sections that start open. The financial cards and the
      items of a closed section are rendered only when it is opened. */
  predicate Displayable(v: ReportView) {
    && Renderable(v.title)
    && Renderable(v.fileName)
    && (v.badges.Badges? ==> Renderable(v.badges.score))
    && (forall i | 0 <= i < |v.cards| :: Renderable(v.cards[i]))
    && (v.description.Some? ==> Renderable(v.description.value))
    && (v.reasoning.Some? ==> Renderable(v.reasoning.value))
    && (forall i | 0 <= i < |v.sections| :: v.sections[i].Shown? && v.sections[i].open ==> v.sections[i].itemsRenderable)
  }

  /** The page throws when the analysis is missing (destructuring it), when a
      list section's items cannot be built, or when React meets a plain object
      among what it renders. */
  function Render(result: JsValue, env: Env): (p: Page)
    ensures p.Spinner? <==> !Truthy(result)
    ensures p.Crashed? <==>
              && Truthy(result)
              && (|| Nullish(Get(result, "analysis"))
                  || (exists i | 0 <= i < |ListKeys| :: Sections(Get(result, "analysis"), env)[i].Throws?)
                  || !Displayable(View(result, env)))
    ensures p.Rendered? ==> p.view == View(result, env) && Displayable(p.view)
                            && forall i | 0 <= i < |p.view.sections| :: !p.view.sections[i].Throws?
  {
    if !Truthy(result) then Spinner
    else
      var analysis := Get(result, "analysis");
      if Nullish(analysis) then Crashed
      else
        var view := View(result, env);
        if exists i | 0 <= i < |view.sections| :: view.sections[i].Throws? then Crashed
        else if !Displayable(view) then Crashed
        else Rendered(view)
  }

  /** A plain object where the page expects text makes the render throw:
      here an issuing authority given as an object. */
  lemma ObjectCardCrashes(env: Env)
    ensures var summary := Obj(map["issuingAuthority" := Obj(map["name" := Str("X")])]);
            Render(Obj(map["analysis" := Obj(map["summary" := summary])]), env) == Crashed
  {
    var summary := Obj(map["issuingAuthority" := Obj(map["name" := Str("X")])]);
    var result := Obj(map["analysis" := Obj(map["summary" := summary])]);
    assert Get(result, "analysis") == Obj(map["summary" := summary]);
    assert View(result, env).cards[0] == Obj(map["name" := Str("X")]);
  }

  /** A `null` key date makes the list callback throw, and the page with it. */
  lemma NullKeyDateCrashes(env: Env)
    ensures Section("Key Dates", Arr([Null]), false, ItemFields[3], env) == Throws
    ensures Render(Obj(map["analysis" := Obj(map["keyDates" := Arr([Null])])]), env) == Crashed
  {
    var analysis := Obj(map["keyDates" := Arr([Null])]);
    assert Nullish(Arr([Null]).items[0]);
    assert Get(analysis, ListKeys[3]) == Arr([Null]);
    assert Sections(analysis, env)[3].Throws?;
  }

  /** An object in a closed section's item does not stop the first render: the
      section is listed, and its items would throw once it is opened. */
  lemma ClosedSectionDefersCrash(env: Env)
    ensures var analysis := Obj(map["keyDates" := Arr([Obj(map["event" := Obj(map[])])])]);
            var p := Render(Obj(map["analysis" := analysis]), env);
            p.Rendered? && p.view.sections[3].Shown? && !p.view.sections[3].itemsRenderable
  {
    var item := Obj(map["event" := Obj(map[])]);
    var analysis := Obj(map["keyDates" := Arr([item])]);
    var result := Obj(map["analysis" := analysis]);
    assert Get(item, ItemFields[3][0]) == Obj(map[]);
    assert Get(analysis, ListKeys[3]) == Arr([item]);
    assert !Nullish(Arr([item]).items[0]);
    assert Get(result, "analysis") == analysis;
    assert Get(analysis, "summary") == Undefined && Get(analysis, "bidScore") == Undefined;
    var v := View(result, env);
    assert !Renderable(Get(Arr([item]).items[0], ItemFields[3][0]));
    assert v.sections[3].Shown? && !v.sections[3].itemsRenderable;
    forall i | 0 <= i < |ListKeys| && i != 3
      ensures v.sections[i] == Hidden
    {
      assert Get(analysis, ListKeys[i]) == Undefined;
    }
    assert Displayable(v);
  }

  // ----- Loading the stored result -----

  /** The effect's outcome: send the browser home, or set `result`. */
  datatype Load = Redirect | SetResult(value: JsValue)

  /** The mount effect. `stored` is the session entry (None when absent);
      `parse` is JSON.parse, which may throw. */
  function LoadStored(stored: Option<string>, parse: string -> Awaited<JsValue>): (l: Load)
    ensures l.Redirect? <==> stored.None? || stored.value == "" || parse(stored.value).Threw?
    ensures l.SetResult? ==> parse(stored.value) == Resolved(l.value)
  {
    if stored.None? || stored.value == "" then Redirect
    else match parse(stored.value)
      case Threw(_) => Redirect
      case Resolved(v) => SetResult(v)
  }

  /** A stored entry that parses to a falsy value (`null`, `0`, `false`, `""`)
      neither redirects nor renders: the spinner stays. */
  lemma FalsyStoredValueSpins(stored: string, parse: string -> Awaited<JsValue>, env: Env)
    requires stored != "" && parse(stored).Resolved? && !Truthy(parse(stored).value)
    ensures LoadStored(Some(stored), parse).SetResult?
    ensures Render(LoadStored(Some(stored), parse).value, env) == Spinner
  {
  }

  // ----- The report for what the upload page stores -----

  /** The object the upload page keeps after a successful analysis never
      leaves the spinner on: it renders as a report naming the uploaded file,
      or throws, as it always does when the analysis is `null`. */
  lemma StoredSuccessRenders(body: AnalyzeRoute.Body, env: Env)
    requires body.Success?
    ensures var p := Render(AnalyzeRoute.ToJs(body), env);
            && !p.Spinner?
            && (body.analysis == Null || body.analysis == Undefined ==> p.Crashed?)
            && (p.Rendered? ==> p.view.fileName == Str(body.fileName))
  {
    var v := AnalyzeRoute.ToJs(body);
    assert Truthy(v);
    assert Get(v, "analysis") == body.analysis;
  }

  /** A model reply whose JSON is `null` is a success for the endpoint, but
      the report page then throws while rendering it. */
  lemma NullAnalysisCrashes(name: string, size: nat, length: nat, env: Env)
    ensures Render(AnalyzeRoute.ToJs(AnalyzeRoute.Success(name, size, length, Null)), env) == Crashed
  {
    StoredSuccessRenders(AnalyzeRoute.Success(name, size, length, Null), env);
  }
}
