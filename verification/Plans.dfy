// The document a plan is written as: when there is one, what it says and what it is called.
module Plans {
  import opened Wrappers
  import opened Values
  import opened PreflightModel
  import opened Decisions
  import Changes
  import Preflight
  import Profiles
  import SharedRules
  import Sizing
  import SizingRules
  import Tally = Counting

  /** A document as it is before it is written: keys, and plain values under them. */
  type Document = map<string, Value>

  /** What computes a name from a document: canonical text, hashed and cut short. */
  type Digest = Document -> string

  /** The sections that are copied from what was decided elsewhere, each already assembled. */
  datatype Sections = Sections(
    profile: Value, request: Value, host: Value, layout: Value, initialization: Option<Value>)

  /** What tells a person, from everything decided, what applying it would change. */
  type Narrator = Decided -> Value

  /** Everything a plan is written with besides what is decided. */
  datatype Writing = Writing(sections: Sections, narrate: Narrator, toolVersion: string, now: string)

  const SCHEMA_VERSION := "2"

  const PLAN_ID := "plan_id"
  const GENERATED_AT := "generated_at"

  // ------------------------------------------------------------------- naming a plan

  /** Everything in the document but its own name and the moment it was written. */
  function ContentOf(plan: Document): Document {
    plan - {PLAN_ID, GENERATED_AT}
  }

  function PlanIdFor(digest: Digest, content: Document): Result<string, Refusal> {
    if PLAN_ID in content || GENERATED_AT in content then Err(NamesItself) else Ok(digest(content))
  }

  /** The question every reader asks first: is this still the plan it calls itself? */
  predicate IsWhatItCallsItself(digest: Digest, plan: Document) {
    PLAN_ID in plan && PlanIdFor(digest, ContentOf(plan)).Ok?
    && plan[PLAN_ID] == Text(PlanIdFor(digest, ContentOf(plan)).value)
  }

  // -------------------------------------------------------------------- what it says

  function Count(n: nat): Value {
    Num(Whole(n))
  }

  function SummaryGroup(s: Summary): Value {
    Group(map["pass" := Count(s.pass), "warn" := Count(s.warn), "block" := Count(s.block), "skip" := Count(s.skip)])
  }

  function OutcomeText(outcome: Outcome): string {
    match outcome
    case Pass => "pass"
    case Warned => "warn"
    case Blocked => "block"
    case Skip => "skip"
  }

  function ResultGroup(r: GateResult): Value {
    Group(map["id" := Text(r.identifier), "source" := Text(if r.source.Shared? then "shared" else "profile"),
              "severity" := Text(if r.severity.Block? then "block" else "warn"), "outcome" := Text(OutcomeText(r.outcome))])
  }

  function UnitText(unit: SizingRules.Unit): string {
    match unit
    case Bytes => "bytes"
    case Milliseconds => "milliseconds"
    case Seconds => "seconds"
    case Count => "count"
    case Ratio => "ratio"
    case Words => "text"
  }

  function WithBound(said: map<string, Value>, held: SizingRules.Held): map<string, Value> {
    match held
    case Free => said
    case AtMin => said["bounded_by" := Text("min")]
    case AtMax => said["bounded_by" := Text("max")]
  }

  function ParameterGroup(sized: SizingRules.Sized): Value {
    var said := WithBound(
      map["parameter" := Text(sized.parameter), "value" := sized.value, "unit" := Text(UnitText(sized.unit)),
          "rule" := Text(sized.rule)], sized.boundedBy);
    Group(if sized.aboveAdvisory.None? then said else said["above_advisory" := Num(sized.aboveAdvisory.value)])
  }

  /** How many parameters came out past the threshold their rule wanted said out loud. */
  function Advised(parameters: seq<SizingRules.Sized>): nat {
    if parameters == [] then 0
    else
      var n := |parameters| - 1;
      Advised(parameters[..n]) + if parameters[n].aboveAdvisory.Some? then 1 else 0
  }

  function ResultSection(warnings: nat): Value {
    Group(map["applicable" := Bool(true), "warnings" := Count(warnings),
              "warnings_require_acknowledgement" := Bool(warnings > 0)])
  }

  function PreflightSection(report: seq<GateResult>): Value {
    Group(map[
      "summary" := SummaryGroup(Summarized(report)),
      "results" := List(seq(|report|, i requires 0 <= i < |report| => ResultGroup(report[i])))])
  }

  /** An entry of the profile as a plan carries it. */
  function Entry(carried: Profiles.Carried, said: map<string, Value>): Value {
    Group(carried + said)
  }

  function Texts(texts: seq<string>): Value {
    List(seq(|texts|, i requires 0 <= i < |texts| => Text(texts[i])))
  }

  function RepositoryGroup(r: Profiles.Repository): Value {
    var said := map["name" := Text(r.name), "url" := Text(r.url)];
    Entry(r.carried, if r.suite.None? then said else said["suite" := Text(r.suite.value)])
  }

  function PackagesSection(family: string, installed: seq<string>, service: string,
                           repository: Option<Profiles.Repository>): Value
  {
    var said := map["family" := Text(family), "install" := Texts(installed), "service" := Text(service)];
    Group(if repository.None? then said else said["repository" := RepositoryGroup(repository.value)])
  }

  function ConfigurationSection(entries: seq<Profiles.ConfigurationFile>): Value {
    List(seq(|entries|, i requires 0 <= i < |entries| =>
               Entry(entries[i].carried, map["id" := Text(entries[i].identifier), "destination" := Text(entries[i].destination)])))
  }

  function SettingGroup(setting: Changes.Setting): Value {
    var said := map["name" := Text(setting.tunable.name), "value" := setting.tunable.value];
    Entry(setting.tunable.carried, if setting.observed.None? then said else said["observed" := setting.observed.value])
  }

  function TunablesSection(settings: seq<Changes.Setting>): Value {
    List(seq(|settings|, i requires 0 <= i < |settings| => SettingGroup(settings[i])))
  }

  function SecretsSection(secrets: seq<Profiles.Secret>): Value {
    List(seq(|secrets|, i requires 0 <= i < |secrets| =>
               Entry(secrets[i].carried, map["name" := Text(secrets[i].name), "location" := Text(secrets[i].location)])))
  }

  function ParametersSection(parameters: seq<SizingRules.Sized>): Value {
    List(seq(|parameters|, i requires 0 <= i < |parameters| => ParameterGroup(parameters[i])))
  }

  /** The sections that say what was decided. */
  function DecidedSections(report: seq<GateResult>, decided: Decided): (sections: Document)
    ensures PLAN_ID !in sections && GENERATED_AT !in sections
  {
    map[
      "preflight" := PreflightSection(report),
      "parameters" := ParametersSection(decided.parameters),
      "packages" := PackagesSection(decided.actions.family, decided.actions.installed, decided.actions.service,
                                    decided.actions.repository),
      "configuration" := ConfigurationSection(decided.actions.configuration),
      "tunables" := TunablesSection(decided.actions.settings),
      "secrets" := SecretsSection(decided.actions.secrets),
      "result" := ResultSection(Counting(report, Warned) + Advised(decided.parameters))]
  }

  function CopiedSections(w: Writing, decided: Decided): (sections: Document)
    ensures PLAN_ID !in sections && GENERATED_AT !in sections
  {
    var copied := map[
      "profile" := w.sections.profile, "request" := w.sections.request, "host" := w.sections.host,
      "layout" := w.sections.layout, "changes" := w.narrate(decided)];
    if w.sections.initialization.None? then copied else copied["initialization" := w.sections.initialization.value]
  }

  function Body(w: Writing, report: seq<GateResult>, decided: Decided): Document {
    CopiedSections(w, decided) + DecidedSections(report, decided)
  }

  function Content(toolVersion: string, body: Document): Document {
    map["schema_version" := Text(SCHEMA_VERSION), "tool_version" := Text(toolVersion)] + body
  }

  /** The digest is taken over everything else the document says, so that neither the name
      nor the moment can change it. */
  function Named(digest: Digest, content: Document, now: string): Result<Document, Refusal> {
    var id :- PlanIdFor(digest, content);
    Ok(content[PLAN_ID := Text(id)][GENERATED_AT := Text(now)])
  }

  /** Everything decided, written down under its own name. */
  function Written(digest: Digest, report: seq<GateResult>, decided: Decided, w: Writing): Result<Document, Refusal> {
    Named(digest, Content(w.toolVersion, Body(w, report, decided)), w.now)
  }

  /** All that is decided for one host whose gates have been run. */
  function DecideFor(report: seq<GateResult>, c: SharedRules.Context): Result<Decided, Refusal> {
    Decide(IsBlocked(report), c.facts, c.profile, c.request, Preflight.ScopeOf(c))
  }

  function BuildPlan(digest: Digest, report: seq<GateResult>, c: SharedRules.Context, w: Writing): Result<Document, Refusal> {
    WrittenIfDecided(digest, report, DecideFor(report, c), w)
  }

  function WrittenIfDecided(digest: Digest, report: seq<GateResult>, decided: Result<Decided, Refusal>, w: Writing)
    : Result<Document, Refusal>
  {
    match decided
    case Err(refusal) => Err(refusal)
    case Ok(all) => Written(digest, report, all, w)
  }

  // ------------------------------------------------------------------------------ laws

  /** Naming a document and reducing it again gives the document that was named. */
  lemma NamedIsWhatItCallsItself(digest: Digest, content: Document, now: string)
    requires PLAN_ID !in content && GENERATED_AT !in content
    ensures Named(digest, content, now).Ok?
    ensures var plan := Named(digest, content, now).value;
            ContentOf(plan) == content && IsWhatItCallsItself(digest, plan)
            && plan[PLAN_ID] == Text(digest(content)) && plan[GENERATED_AT] == Text(now)
  {
    var plan := content[PLAN_ID := Text(digest(content))][GENERATED_AT := Text(now)];
    assert ContentOf(plan) == content;
  }

  lemma ContentHasNoName(w: Writing, report: seq<GateResult>, decided: Decided)
    ensures PLAN_ID !in Content(w.toolVersion, Body(w, report, decided))
    ensures GENERATED_AT !in Content(w.toolVersion, Body(w, report, decided))
    ensures PLAN_ID !in Body(w, report, decided) && GENERATED_AT !in Body(w, report, decided)
  {
    HeaderHasNoName(w.toolVersion, Body(w, report, decided));
  }

  lemma HeaderHasNoName(toolVersion: string, body: Document)
    requires PLAN_ID !in body && GENERATED_AT !in body
    ensures PLAN_ID !in Content(toolVersion, body) && GENERATED_AT !in Content(toolVersion, body)
  {
  }

  lemma WrittenIsNamed(digest: Digest, report: seq<GateResult>, decided: Decided, w: Writing)
    ensures var plan := Written(digest, report, decided, w);
            plan.Ok? && IsWhatItCallsItself(digest, plan.value)
            && ContentOf(plan.value) == Content(w.toolVersion, Body(w, report, decided))
  {
    ContentHasNoName(w, report, decided);
    NamedIsWhatItCallsItself(digest, Content(w.toolVersion, Body(w, report, decided)), w.now);
  }

  /** Everything a plan waits for: no gate blocks, every parameter is sized, the family has
      packages, every template is filled in, every setting can be read and shown. */
  predicate Plannable(report: seq<GateResult>, c: SharedRules.Context) {
    var scope := Preflight.ScopeOf(c);
    && !IsBlocked(report) && Sizing.EvaluateRules(c.profile.sizing, scope).Ok?
    && Changes.Provisionable(c.facts, c.profile, c.request, scope)
    && forall t | t in c.profile.tunables :: Showable(t, scope)
  }

  /** A plan exists exactly when the host is plannable, and passes the reader's check
      whatever the digest is. */
  lemma BuiltPlanIsWhatItCallsItself(digest: Digest, report: seq<GateResult>, c: SharedRules.Context, w: Writing)
    ensures BuildPlan(digest, report, c, w).Ok? <==> DecideFor(report, c).Ok?
    ensures BuildPlan(digest, report, c, w).Ok? <==> Plannable(report, c)
    ensures BuildPlan(digest, report, c, w).Ok? ==> IsWhatItCallsItself(digest, BuildPlan(digest, report, c, w).value)
  {
    DecidedExactly(IsBlocked(report), c.facts, c.profile, c.request, Preflight.ScopeOf(c));
    if DecideFor(report, c).Ok? {
      WrittenIsNamed(digest, report, DecideFor(report, c).value, w);
    }
  }

  /** The digest tells these two apart, if anything does. */
  ghost predicate NoCollision(digest: Digest, a: Document, b: Document) {
    digest(ContentOf(a)) == digest(ContentOf(b)) ==> ContentOf(a) == ContentOf(b)
  }

  /** Two plans that are what they call themselves carry the same name exactly when they
      agree on everything but the moment they were written. */
  lemma SameNameExactlySameContent(digest: Digest, a: Document, b: Document)
    requires NoCollision(digest, a, b) && IsWhatItCallsItself(digest, a) && IsWhatItCallsItself(digest, b)
    ensures a[PLAN_ID] == b[PLAN_ID] <==> a - {GENERATED_AT} == b - {GENERATED_AT}
  {
    if a[PLAN_ID] == b[PLAN_ID] {
      SameButForTheName(a, b);
    } else {
      assert (a - {GENERATED_AT})[PLAN_ID] != (b - {GENERATED_AT})[PLAN_ID];
    }
  }

  lemma SameButForTheName(a: Document, b: Document)
    requires PLAN_ID in a && PLAN_ID in b && a[PLAN_ID] == b[PLAN_ID] && ContentOf(a) == ContentOf(b)
    ensures a - {GENERATED_AT} == b - {GENERATED_AT}
  {
    var x, y := a - {GENERATED_AT}, b - {GENERATED_AT};
    forall k ensures k in x <==> k in y {
      assert k in ContentOf(a) <==> k in ContentOf(b);
    }
    forall k | k in x ensures x[k] == y[k] {
      if k != PLAN_ID {
        assert k in ContentOf(a);
        assert ContentOf(a)[k] == ContentOf(b)[k];
      }
    }
  }

  /** The gates of a report that came out one way, by their places in it. */
  function Gates(report: seq<GateResult>, outcome: Outcome): set<int> {
    Tally.Places(report, (r: GateResult) => r.outcome == outcome)
  }

  /** The parameters that came out past their threshold, by their places among them. */
  function PastThreshold(parameters: seq<SizingRules.Sized>): set<int> {
    Tally.Places(parameters, (p: SizingRules.Sized) => p.aboveAdvisory.Some?)
  }

  lemma {:induction false} AdvisedCountsExactly(parameters: seq<SizingRules.Sized>)
    ensures Advised(parameters) == |PastThreshold(parameters)|
  {
    if parameters != [] {
      AdvisedCountsExactly(parameters[..|parameters| - 1]);
      Tally.PlacesOfLast(parameters, (p: SizingRules.Sized) => p.aboveAdvisory.Some?);
    }
  }

  /** What a document says of its gates and its warnings. */
  ghost predicate SaysItsWarnings(plan: Document, report: seq<GateResult>, parameters: seq<SizingRules.Sized>) {
    var warnings := |Gates(report, Warned)| + |PastThreshold(parameters)|;
    && "preflight" in plan && plan["preflight"].Group? && "summary" in plan["preflight"].members
    && plan["preflight"].members["summary"] ==
       SummaryGroup(Summary(|Gates(report, Pass)|, |Gates(report, Warned)|, 0, |Gates(report, Skip)|))
    && "result" in plan && plan["result"].Group?
    && "warnings" in plan["result"].members && plan["result"].members["warnings"] == Count(warnings)
    && "warnings_require_acknowledgement" in plan["result"].members
    && plan["result"].members["warnings_require_acknowledgement"] == Bool(warnings > 0)
  }

  /** A plan that was produced counts no block, every other gate once, and one warning for
      every gate that warned and every parameter past its threshold. */
  lemma PlanWarnings(digest: Digest, report: seq<GateResult>, c: SharedRules.Context, w: Writing)
    requires BuildPlan(digest, report, c, w).Ok?
    ensures DecideFor(report, c).Ok?
    ensures SaysItsWarnings(BuildPlan(digest, report, c, w).value, report, DecideFor(report, c).value.parameters)
    ensures |Gates(report, Blocked)| == 0
    ensures |Gates(report, Pass)| + |Gates(report, Warned)| + |Gates(report, Skip)| == |report|
  {
    GatesAreCounted(report);
    WrittenSaysItsWarnings(digest, report, DecideFor(report, c).value, w);
  }

  lemma GatesAreCounted(report: seq<GateResult>)
    requires !IsBlocked(report)
    ensures Summarized(report) == Summary(|Gates(report, Pass)|, |Gates(report, Warned)|, 0, |Gates(report, Skip)|)
    ensures |Gates(report, Blocked)| == 0
    ensures |Gates(report, Pass)| + |Gates(report, Warned)| + |Gates(report, Skip)| == |report|
  {
    CountsAddUp(report);
    CountingIsPlaces(report, Pass);
    CountingIsPlaces(report, Warned);
    CountingIsPlaces(report, Blocked);
    CountingIsPlaces(report, Skip);
  }

  lemma WrittenSaysItsWarnings(digest: Digest, report: seq<GateResult>, decided: Decided, w: Writing)
    requires !IsBlocked(report)
    ensures Written(digest, report, decided, w).Ok?
    ensures SaysItsWarnings(Written(digest, report, decided, w).value, report, decided.parameters)
  {
    WrittenSaysWhatWasDecided(digest, report, decided, w);
    GatesAreCounted(report);
    AdvisedCountsExactly(decided.parameters);
    SectionsSayTheWarnings(report, decided);
    SaysOnward(Written(digest, report, decided, w).value, report, decided);
  }

  lemma SectionsSayTheWarnings(report: seq<GateResult>, decided: Decided)
    requires Summarized(report) == Summary(|Gates(report, Pass)|, |Gates(report, Warned)|, 0, |Gates(report, Skip)|)
    requires Advised(decided.parameters) == |PastThreshold(decided.parameters)|
    ensures SaysItsWarnings(DecidedSections(report, decided), report, decided.parameters)
  {
  }

  lemma SaysOnward(plan: Document, report: seq<GateResult>, decided: Decided)
    requires Says(plan, DecidedSections(report, decided))
    requires SaysItsWarnings(DecidedSections(report, decided), report, decided.parameters)
    ensures SaysItsWarnings(plan, report, decided.parameters)
  {
    assert "preflight" in DecidedSections(report, decided) && "result" in DecidedSections(report, decided);
  }

  lemma SectionsOfBody(w: Writing, report: seq<GateResult>, decided: Decided)
    ensures forall key | key in DecidedSections(report, decided) ::
              key in Body(w, report, decided) && Body(w, report, decided)[key] == DecidedSections(report, decided)[key]
  {
  }

  /** Naming a document changes none of its sections. */
  lemma CarriedThrough(digest: Digest, toolVersion: string, body: Document, now: string)
    requires PLAN_ID !in body && GENERATED_AT !in body && Named(digest, Content(toolVersion, body), now).Ok?
    ensures forall key | key in body ::
              key in Named(digest, Content(toolVersion, body), now).value
              && Named(digest, Content(toolVersion, body), now).value[key] == body[key]
  {
  }

  /** What a plan says of everything that was decided is what was decided. */
  lemma WrittenSaysWhatWasDecided(digest: Digest, report: seq<GateResult>, decided: Decided, w: Writing)
    ensures Written(digest, report, decided, w).Ok?
    ensures Says(Written(digest, report, decided, w).value, DecidedSections(report, decided))
  {
    ContentHasNoName(w, report, decided);
    WrittenIsNamed(digest, report, decided, w);
    SectionsOfBody(w, report, decided);
    CarriedThrough(digest, w.toolVersion, Body(w, report, decided), w.now);
  }

  lemma SectionsSaid(plan: Document, report: seq<GateResult>, decided: Decided)
    requires Says(plan, DecidedSections(report, decided))
    ensures "parameters" in plan && plan["parameters"] == ParametersSection(decided.parameters)
    ensures "packages" in plan
    ensures plan["packages"] == PackagesSection(decided.actions.family, decided.actions.installed, decided.actions.service,
                                                decided.actions.repository)
    ensures "configuration" in plan && plan["configuration"] == ConfigurationSection(decided.actions.configuration)
    ensures "tunables" in plan && plan["tunables"] == TunablesSection(decided.actions.settings)
    ensures "secrets" in plan && plan["secrets"] == SecretsSection(decided.actions.secrets)
  {
    var said := DecidedSections(report, decided);
    assert "parameters" in said && "packages" in said && "configuration" in said && "tunables" in said && "secrets" in said;
  }

  ghost predicate Says(plan: Document, sections: Document) {
    forall key | key in sections :: key in plan && plan[key] == sections[key]
  }
}
