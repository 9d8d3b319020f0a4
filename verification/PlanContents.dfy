// What a plan tells its reader, section by section and place by place, of what was decided;
// and what of all that was promised on the way is in it.
module PlanContents {
  import opened Wrappers
  import opened Values
  import opened PreflightModel
  import opened Decisions
  import opened Plans
  import ActionContents
  import Changes
  import Preflight
  import Profiles
  import SharedRules
  import Sizing
  import SizingLaws
  import SizingPromises
  import SizingRules

  // -------------------------------------------------------------------------- one entry

  ghost predicate Tells(v: Value, key: string, said: Value) {
    v.Group? && key in v.members && v.members[key] == said
  }

  /** The key is there exactly where there is something to say. */
  ghost predicate TellsIfAny(v: Value, key: string, said: Option<Value>) {
    v.Group? && if said.Some? then Tells(v, key, said.value) else key !in v.members
  }

  /** What the profile said besides is carried as it is. */
  ghost predicate Carries(v: Value, carried: Profiles.Carried, said: set<string>) {
    && v.Group? && v.members.Keys == carried.Keys + said && forall key | key in carried && key !in said :: v.members[key] == carried[key]
  }

  ghost predicate ParameterTold(v: Value, sized: SizingRules.Sized) {
    && Tells(v, "parameter", Text(sized.parameter)) && Tells(v, "value", sized.value) && Tells(v, "rule", Text(sized.rule))
    && (sized.unit == SizingRules.Bytes ==> Tells(v, "unit", Text("bytes")))
    && (sized.unit == SizingRules.Milliseconds ==> Tells(v, "unit", Text("milliseconds")))
    && (sized.unit == SizingRules.Seconds ==> Tells(v, "unit", Text("seconds")))
    && (sized.unit == SizingRules.Count ==> Tells(v, "unit", Text("count")))
    && (sized.unit == SizingRules.Ratio ==> Tells(v, "unit", Text("ratio")))
    && (sized.unit == SizingRules.Words ==> Tells(v, "unit", Text("text")))
    && (sized.boundedBy == SizingRules.AtMin ==> Tells(v, "bounded_by", Text("min")))
    && (sized.boundedBy == SizingRules.AtMax ==> Tells(v, "bounded_by", Text("max")))
    && (sized.boundedBy == SizingRules.Free ==> TellsIfAny(v, "bounded_by", None))
    && (sized.aboveAdvisory.Some? ==> Tells(v, "above_advisory", Num(sized.aboveAdvisory.value)))
    && (sized.aboveAdvisory.None? ==> TellsIfAny(v, "above_advisory", None))
  }

  lemma ParameterIsTold(sized: SizingRules.Sized)
    ensures ParameterTold(ParameterGroup(sized), sized)
  {
  }

  ghost predicate ResultTold(v: Value, r: GateResult) {
    && Tells(v, "id", Text(r.identifier))
    && Tells(v, "source", Text(match r.source case Shared => "shared" case Contributed => "profile"))
    && Tells(v, "severity", Text(match r.severity case Block => "block" case Warn => "warn"))
    && Tells(v, "outcome", Text(match r.outcome case Pass => "pass" case Warned => "warn" case Blocked => "block" case Skip => "skip"))
  }

  lemma GateIsTold(r: GateResult)
    ensures ResultTold(ResultGroup(r), r)
  {
  }

  ghost predicate ConfigurationTold(v: Value, entry: Profiles.ConfigurationFile) {
    && Tells(v, "id", Text(entry.identifier)) && Tells(v, "destination", Text(entry.destination))
    && Carries(v, entry.carried, {"id", "destination"})
  }

  ghost predicate SecretTold(v: Value, secret: Profiles.Secret) {
    && Tells(v, "name", Text(secret.name)) && Tells(v, "location", Text(secret.location))
    && Carries(v, secret.carried, {"name", "location"})
  }

  ghost predicate SettingTold(v: Value, setting: Changes.Setting) {
    && Tells(v, "name", Text(setting.tunable.name)) && Tells(v, "value", setting.tunable.value)
    && (setting.observed.Some? ==> Tells(v, "observed", setting.observed.value))
    && Carries(v, setting.tunable.carried, {"name", "value"} + if setting.observed.Some? then {"observed"} else {})
  }

  ghost predicate RepositoryTold(v: Value, r: Profiles.Repository) {
    && Tells(v, "name", Text(r.name)) && Tells(v, "url", Text(r.url))
    && (r.suite.Some? ==> Tells(v, "suite", Text(r.suite.value)))
    && Carries(v, r.carried, {"name", "url"} + if r.suite.Some? then {"suite"} else {})
  }

  lemma SettingIsTold(setting: Changes.Setting)
    ensures SettingTold(SettingGroup(setting), setting)
  {
  }

  lemma RepositoryIsTold(r: Profiles.Repository)
    ensures RepositoryTold(RepositoryGroup(r), r)
  {
  }

  ghost predicate TextsTold(v: Value, texts: seq<string>) {
    v.List? && |v.items| == |texts| && forall i | 0 <= i < |texts| :: v.items[i] == Text(texts[i])
  }

  ghost predicate PackagesTold(v: Value, actions: Changes.Actions) {
    && Tells(v, "family", Text(actions.family)) && Tells(v, "service", Text(actions.service))
    && v.Group? && "install" in v.members && TextsTold(v.members["install"], actions.installed)
    && (actions.repository.Some? <==> "repository" in v.members)
    && (actions.repository.Some? ==> RepositoryTold(v.members["repository"], actions.repository.value))
  }

  lemma PackagesAreTold(actions: Changes.Actions)
    ensures PackagesTold(PackagesSection(actions.family, actions.installed, actions.service, actions.repository), actions)
  {
    if actions.repository.Some? {
      RepositoryIsTold(actions.repository.value);
    }
  }

  /** A list with one entry for each thing, in its order, telling of that thing. */
  ghost predicate ListTold<T>(v: Value, things: seq<T>, told: (Value, T) -> bool) {
    v.List? && |v.items| == |things| && forall i | 0 <= i < |things| :: told(v.items[i], things[i])
  }

  lemma ParametersAreTold(parameters: seq<SizingRules.Sized>)
    ensures ListTold(ParametersSection(parameters), parameters, ParameterTold)
  {
    forall i | 0 <= i < |parameters| ensures ParameterTold(ParametersSection(parameters).items[i], parameters[i]) {
      ParameterIsTold(parameters[i]);
    }
  }

  lemma SettingsAreTold(settings: seq<Changes.Setting>)
    ensures ListTold(TunablesSection(settings), settings, SettingTold)
  {
    forall i | 0 <= i < |settings| ensures SettingTold(TunablesSection(settings).items[i], settings[i]) {
      SettingIsTold(settings[i]);
    }
  }

  lemma ConfigurationIsTold(entries: seq<Profiles.ConfigurationFile>)
    ensures ListTold(ConfigurationSection(entries), entries, ConfigurationTold)
  {
  }

  lemma SecretsAreTold(secrets: seq<Profiles.Secret>)
    ensures ListTold(SecretsSection(secrets), secrets, SecretTold)
  {
  }

  ghost predicate PreflightTold(v: Value, report: seq<GateResult>) {
    && v.Group? && "results" in v.members && ListTold(v.members["results"], report, ResultTold)
    && "summary" in v.members
    && Tells(v.members["summary"], "pass", Num(Whole(Counting(report, Pass))))
    && Tells(v.members["summary"], "warn", Num(Whole(Counting(report, Warned))))
    && Tells(v.members["summary"], "block", Num(Whole(Counting(report, Blocked))))
    && Tells(v.members["summary"], "skip", Num(Whole(Counting(report, Skip))))
  }

  lemma SummaryIsTold(s: Summary)
    ensures Tells(SummaryGroup(s), "pass", Num(Whole(s.pass))) && Tells(SummaryGroup(s), "warn", Num(Whole(s.warn)))
    ensures Tells(SummaryGroup(s), "block", Num(Whole(s.block))) && Tells(SummaryGroup(s), "skip", Num(Whole(s.skip)))
  {
  }

  lemma PreflightIsTold(report: seq<GateResult>)
    ensures PreflightTold(PreflightSection(report), report)
  {
    SummaryIsTold(Summarized(report));
    var results := PreflightSection(report).members["results"];
    forall i | 0 <= i < |report| ensures ResultTold(results.items[i], report[i]) {
      GateIsTold(report[i]);
    }
  }

  /** The plan can be applied, with so many warnings, which have to be acknowledged where there
      are any. */
  ghost predicate OutcomeTold(v: Value, warnings: nat) {
    && Tells(v, "applicable", Bool(true)) && Tells(v, "warnings", Num(Whole(warnings)))
    && Tells(v, "warnings_require_acknowledgement", Bool(warnings > 0))
  }

  lemma OutcomeIsTold(warnings: nat)
    ensures OutcomeTold(ResultSection(warnings), warnings)
  {
  }

  // ---------------------------------------------------------------------- the whole document

  /** The document tells of every gate and of the warnings they and the parameters came to. */
  ghost predicate ReportTold(plan: Document, report: seq<GateResult>, decided: Decided) {
    && "preflight" in plan && PreflightTold(plan["preflight"], report)
    && "result" in plan && OutcomeTold(plan["result"], |Gates(report, Warned)| + |PastThreshold(decided.parameters)|)
  }

  /** The document tells of every parameter, package, file, setting and secret that was
      decided, each in its place. */
  ghost predicate ActionsTold(plan: Document, decided: Decided) {
    && "parameters" in plan && ListTold(plan["parameters"], decided.parameters, ParameterTold)
    && "packages" in plan && PackagesTold(plan["packages"], decided.actions)
    && "configuration" in plan && ListTold(plan["configuration"], decided.actions.configuration, ConfigurationTold)
    && "tunables" in plan && ListTold(plan["tunables"], decided.actions.settings, SettingTold)
    && "secrets" in plan && ListTold(plan["secrets"], decided.actions.secrets, SecretTold)
  }

  lemma ActionsAreTold(plan: Document, report: seq<GateResult>, decided: Decided)
    requires Says(plan, DecidedSections(report, decided))
    ensures ActionsTold(plan, decided)
  {
    SectionsSaid(plan, report, decided);
    ParametersAreTold(decided.parameters);
    PackagesAreTold(decided.actions);
    ConfigurationIsTold(decided.actions.configuration);
    SettingsAreTold(decided.actions.settings);
    SecretsAreTold(decided.actions.secrets);
  }

  lemma WarningsCounted(report: seq<GateResult>, parameters: seq<SizingRules.Sized>)
    ensures Counting(report, Warned) + Advised(parameters) == |Gates(report, Warned)| + |PastThreshold(parameters)|
  {
    CountingIsPlaces(report, Warned);
    AdvisedCountsExactly(parameters);
  }

  lemma ReportIsTold(plan: Document, report: seq<GateResult>, decided: Decided)
    requires Says(plan, DecidedSections(report, decided))
    ensures ReportTold(plan, report, decided)
  {
    PreflightSaid(plan, report, decided);
    PreflightIsTold(report);
    ResultIsTold(plan, report, decided);
  }

  lemma ResultIsTold(plan: Document, report: seq<GateResult>, decided: Decided)
    requires Says(plan, DecidedSections(report, decided))
    ensures "result" in plan && OutcomeTold(plan["result"], |Gates(report, Warned)| + |PastThreshold(decided.parameters)|)
  {
    ResultSaid(plan, report, decided);
    WarningsCounted(report, decided.parameters);
    OutcomeIsTold(Counting(report, Warned) + Advised(decided.parameters));
  }

  lemma PreflightSaid(plan: Document, report: seq<GateResult>, decided: Decided)
    requires Says(plan, DecidedSections(report, decided))
    ensures "preflight" in plan && plan["preflight"] == PreflightSection(report)
  {
    assert "preflight" in DecidedSections(report, decided);
  }

  lemma ResultSaid(plan: Document, report: seq<GateResult>, decided: Decided)
    requires Says(plan, DecidedSections(report, decided))
    ensures "result" in plan && plan["result"] == ResultSection(Counting(report, Warned) + Advised(decided.parameters))
  {
    assert "result" in DecidedSections(report, decided);
  }

  /** A document that already has a name or a moment in it is not given one. */
  lemma NamedOnlyOnce(digest: Digest, content: Document, now: string)
    ensures Named(digest, content, now).Err? <==> "plan_id" in content || "generated_at" in content
    ensures Named(digest, content, now).Err? ==> Named(digest, content, now) == Err(NamesItself)
    ensures Named(digest, content, now).Ok? ==> Named(digest, content, now).value["plan_id"] == Text(digest(content))
  {
  }

  const HEADER: set<string> := {"schema_version", "tool_version", "plan_id", "generated_at"}
  const COPIED: set<string> := {"profile", "request", "host", "layout", "changes"}
  const DECIDED: set<string> := {"preflight", "parameters", "packages", "configuration", "tunables", "secrets", "result"}

  function OptionalSection(w: Writing): set<string> {
    if w.sections.initialization.Some? then {"initialization"} else {}
  }

  ghost predicate HeaderTold(plan: Document, toolVersion: string, now: string) {
    && HEADER <= plan.Keys && plan["schema_version"] == Text("2") && plan["tool_version"] == Text(toolVersion)
    && plan["generated_at"] == Text(now)
  }

  ghost predicate CopiedTold(plan: Document, w: Writing, decided: Decided) {
    && COPIED + OptionalSection(w) <= plan.Keys
    && plan["profile"] == w.sections.profile && plan["request"] == w.sections.request && plan["host"] == w.sections.host
    && plan["layout"] == w.sections.layout && plan["changes"] == w.narrate(decided)
    && (w.sections.initialization.Some? ==> plan["initialization"] == w.sections.initialization.value)
  }

  /** What was copied is in the document as it was given, and so are the moment and the two
      versions; and there is nothing else in it. */
  ghost predicate CopiesTold(plan: Document, w: Writing, decided: Decided) {
    && plan.Keys == HEADER + (COPIED + OptionalSection(w)) + DECIDED
    && HeaderTold(plan, w.toolVersion, w.now) && CopiedTold(plan, w, decided)
  }

  lemma DecidedKeys(report: seq<GateResult>, decided: Decided)
    ensures DecidedSections(report, decided).Keys == DECIDED
  {
  }

  lemma CopiedKeys(w: Writing, decided: Decided)
    ensures CopiedSections(w, decided).Keys == COPIED + OptionalSection(w) && CopiedTold(CopiedSections(w, decided), w, decided)
  {
  }

  lemma SectionsAreApart(w: Writing)
    ensures (COPIED + OptionalSection(w)) !! DECIDED && HEADER !! (COPIED + OptionalSection(w)) + DECIDED
  {
  }

  lemma HeaderIsTold(digest: Digest, toolVersion: string, body: Document, now: string)
    requires HEADER !! body.Keys
    ensures Named(digest, Content(toolVersion, body), now).Ok?
    ensures var plan := Named(digest, Content(toolVersion, body), now).value;
            && plan.Keys == HEADER + body.Keys && HeaderTold(plan, toolVersion, now)
            && forall key | key in body :: plan[key] == body[key]
  {
    assert PLAN_ID in HEADER && GENERATED_AT in HEADER && "schema_version" in HEADER && "tool_version" in HEADER;
    HeaderHasNoName(toolVersion, body);
  }

  lemma CopiesStay(copied: Document, plan: Document, w: Writing, decided: Decided)
    requires CopiedTold(copied, w, decided) && copied.Keys <= plan.Keys && forall key | key in copied :: plan[key] == copied[key]
    ensures CopiedTold(plan, w, decided)
  {
    assert forall key | key in COPIED + OptionalSection(w) :: plan[key] == copied[key];
  }

  lemma CopiesAreTold(digest: Digest, report: seq<GateResult>, decided: Decided, w: Writing)
    ensures Written(digest, report, decided, w).Ok?
    ensures CopiesTold(Written(digest, report, decided, w).value, w, decided)
  {
    DecidedKeys(report, decided);
    CopiedKeys(w, decided);
    SectionsAreApart(w);
    PutTogether(digest, CopiedSections(w, decided), DecidedSections(report, decided), w, decided);
  }

  lemma PutTogether(digest: Digest, copied: Document, said: Document, w: Writing, decided: Decided)
    requires copied.Keys == COPIED + OptionalSection(w) && said.Keys == DECIDED && CopiedTold(copied, w, decided)
    requires (COPIED + OptionalSection(w)) !! DECIDED && HEADER !! (COPIED + OptionalSection(w)) + DECIDED
    ensures Named(digest, Content(w.toolVersion, copied + said), w.now).Ok?
    ensures CopiesTold(Named(digest, Content(w.toolVersion, copied + said), w.now).value, w, decided)
  {
    var body := copied + said;
    assert body.Keys == copied.Keys + said.Keys && forall key | key in copied :: body[key] == copied[key];
    HeaderIsTold(digest, w.toolVersion, body, w.now);
    CopiesStay(copied, Named(digest, Content(w.toolVersion, body), w.now).value, w, decided);
  }

  // ------------------------------------------------------------------ everything promised

  /** What was decided is what sizing came to and what the profile asks to be done. */
  lemma DecidedFromItsParts(report: seq<GateResult>, c: SharedRules.Context)
    requires DecideFor(report, c).Ok?
    ensures var decided := DecideFor(report, c).value; var scope := Preflight.ScopeOf(c);
            && Sizing.EvaluateRules(c.profile.sizing, scope) == Ok(decided.parameters)
            && Changes.PlanActions(c.facts, c.profile, c.request, scope) == Ok(decided.actions)
  {
  }

  /** Every parameter keeps the promises of its rule and everything to be done is the text of
      its own template. */
  ghost predicate PromisesKept(c: SharedRules.Context, decided: Decided) {
    && ActionContents.Carried(c.facts, c.profile, Changes.Vocabulary(c.facts, c.request), Preflight.ScopeOf(c), decided.actions)
    && exists values ::
         SizingLaws.SelfConsistent(SizingRules.Size, c.profile.sizing, Preflight.ScopeOf(c), decided.parameters, values)
         && forall i | 0 <= i < |c.profile.sizing| ::
              SizingPromises.RuleKept(c.profile.sizing[i], Preflight.ScopeOf(c) + values, decided.parameters[i])
  }

  lemma DecisionsKeepPromises(c: SharedRules.Context, decided: Decided)
    requires SizingLaws.Distinct(c.profile.sizing)
    requires Sizing.EvaluateRules(c.profile.sizing, Preflight.ScopeOf(c)) == Ok(decided.parameters)
    requires Changes.PlanActions(c.facts, c.profile, c.request, Preflight.ScopeOf(c)) == Ok(decided.actions)
    ensures PromisesKept(c, decided)
  {
    SizingPromises.RunKeepsPromises(c.profile.sizing, Preflight.ScopeOf(c));
    ActionContents.ActionsAreCarried(c.facts, c.profile, c.request, Preflight.ScopeOf(c));
  }

  /** A plan that was built tells of exactly what was decided, and what was decided keeps
      everything the rules and the templates of the profile promise. */
  lemma PlansTellWhatWasPromised(digest: Digest, report: seq<GateResult>, c: SharedRules.Context, w: Writing)
    requires SizingLaws.Distinct(c.profile.sizing) && BuildPlan(digest, report, c, w).Ok?
    ensures exists decided ::
              && PromisesKept(c, decided)
              && ReportTold(BuildPlan(digest, report, c, w).value, report, decided)
              && ActionsTold(BuildPlan(digest, report, c, w).value, decided)
              && CopiesTold(BuildPlan(digest, report, c, w).value, w, decided)
  {
    BuiltPlanIsWhatItCallsItself(digest, report, c, w);
    var decided := DecideFor(report, c).value;
    DecidedFromItsParts(report, c);
    DecisionsKeepPromises(c, decided);
    WrittenSaysWhatWasDecided(digest, report, decided, w);
    ReportIsTold(Written(digest, report, decided, w).value, report, decided);
    ActionsAreTold(Written(digest, report, decided, w).value, report, decided);
    CopiesAreTold(digest, report, decided, w);
  }

  /** What is refused is the first of these that is so: a gate blocks, a parameter cannot be
      sized, something cannot be filled in or read, or a setting cannot be shown. */
  lemma RefusedInOrder(report: seq<GateResult>, c: SharedRules.Context)
    ensures var r, scope := DecideFor(report, c), Preflight.ScopeOf(c);
            var sizes, actions := Sizing.EvaluateRules(c.profile.sizing, scope), Changes.PlanActions(c.facts, c.profile, c.request, scope);
            if IsBlocked(report) then r == Err(BlockedHost)
            else if sizes.Err? then r == Err(Unsizable(sizes.error))
            else if actions.Err? then r == Err(Unprovisionable(actions.error))
            else if exists t | t in c.profile.tunables :: !Showable(t, scope) then
              r.Err? && r.error.Unwritable? && r.error.tunable in c.profile.tunables && !Showable(r.error.tunable, scope)
            else r.Ok?
  {
    var scope := Preflight.ScopeOf(c);
    var actions := Changes.PlanActions(c.facts, c.profile, c.request, scope);
    DecidedExactly(IsBlocked(report), c.facts, c.profile, c.request, scope);
    if actions.Ok? && FirstUnwritable(actions.value.settings).Some? {
      ActionContents.ActionsAreCarried(c.facts, c.profile, c.request, scope);
      UnwritableIsATunable(c.profile.tunables, scope, actions.value.settings);
    }
    if actions.Ok? {
      SettingsAreWritableExactly(c.facts, c.profile, c.request, scope);
    }
  }

  lemma UnwritableIsATunable(tunables: seq<Profiles.Tunable>, scope: Scope, settings: seq<Changes.Setting>)
    requires ActionContents.AllSeen(tunables, scope, settings) && FirstUnwritable(settings).Some?
    ensures FirstUnwritable(settings).value in tunables && !Showable(FirstUnwritable(settings).value, scope)
  {
    FirstUnwritableIsExact(settings);
    var x :| x in settings && !Writable(x) && x.tunable == FirstUnwritable(settings).value;
    var i :| 0 <= i < |settings| && settings[i] == x;
    assert ActionContents.Seen(tunables[i], scope, settings[i].observed);
  }
}
