// What applying a plan would do, resolved before anything is touched: the templates of a
// profile filled in for one host, and each host setting beside what it is now.
module Changes {
  import opened Wrappers
  import opened Values
  import opened Expressions
  import opened Profiles
  import Facts
  import Monotone = ExpressionMonotone
  import Placeholders
  import Sound = ExpressionSoundness

  datatype Reason = Unreadable(culprit: Node) | Failed(fault: Expressions.Fault)

  /** Why nothing can be applied. An exception from evaluating a setting is not a refusal
      the planner means to make. */
  datatype ActionError =
    | NoPackages(family: string)
    | Unfilled(template: string, fault: Placeholders.Fault)
    | WrongSetting(tunable: Tunable, reason: Reason)
    | Escaped(tunable: Tunable, panic: Panic)

  /** A host setting with what it was seen to be, if the host said. */
  datatype Setting = Setting(tunable: Tunable, observed: Option<Value>)

  datatype Actions = Actions(
    family: string, installed: seq<string>, service: string,
    repository: Option<Repository>, configuration: seq<ConfigurationFile>,
    settings: seq<Setting>, secrets: seq<Secret>)

  // --------------------------------------------------------------------------- resolving

  function Major(version: string): string {
    if version == [] || version[0] == '.' then [] else [version[0]] + Major(version[1..])
  }

  /** The names templates can use, with no value for what was not collected. */
  function Vocabulary(facts: Facts.HostFacts, request: Request): Placeholders.Vocabulary {
    map["engine" := Some(request.engine), "instance" := Some(request.instance), "version" := Some(request.version),
        "environment" := Some(request.environment), "host" := Some(request.host),
        "os.family" := Some(facts.os.family), "os.distro" := Some(facts.os.distro),
        "os.version" := Some(facts.os.version), "os.major" := Some(Major(facts.os.version)),
        "os.codename" := facts.os.codename]
  }

  function FillIn(template: string, values: Placeholders.Vocabulary): Result<string, ActionError> {
    match Placeholders.Substitute(template, values)
    case Ok(text) => Ok(text)
    case Err(fault) => Err(Unfilled(template, fault))
  }

  function FillAll(templates: seq<string>, values: Placeholders.Vocabulary): (r: Result<seq<string>, ActionError>)
    ensures r.Ok? ==> |r.value| == |templates|
    ensures r.Err? ==> r.error.Unfilled?
  {
    if templates == [] then Ok([])
    else
      var first :- FillIn(templates[0], values);
      var rest :- FillAll(templates[1..], values);
      Ok([first] + rest)
  }

  /** What a setting is now: nothing where the profile does not ask or the host did not say. */
  function Read(tunable: Tunable, scope: Scope): Result<Option<Value>, ActionError> {
    if tunable.observed.None? then Ok(None)
    else
      match Check(tunable.observed.value)
      case Refused(culprit) => Err(WrongSetting(tunable, Unreadable(culprit)))
      case Accepted =>
        match Evaluate(tunable.observed.value, scope)
        case Val(value) => Ok(Some(value))
        case Missing(_) => Ok(None)
        case Wrong(fault) => Err(WrongSetting(tunable, Failed(fault)))
        case Crash(panic) => Err(Escaped(tunable, panic))
  }

  function ReadAll(tunables: seq<Tunable>, scope: Scope): Result<seq<Setting>, ActionError> {
    if tunables == [] then Ok([])
    else
      var first :- Read(tunables[0], scope);
      var rest :- ReadAll(tunables[1..], scope);
      Ok([Setting(tunables[0], first)] + rest)
  }

  function Destinations(entries: seq<ConfigurationFile>): (r: seq<string>)
    ensures |r| == |entries|
  {
    seq(|entries|, i requires 0 <= i < |entries| => entries[i].destination)
  }

  function Locations(secrets: seq<Secret>): (r: seq<string>)
    ensures |r| == |secrets|
  {
    seq(|secrets|, i requires 0 <= i < |secrets| => secrets[i].location)
  }

  /** The templates of a repository, in the order they are filled in. */
  function RepositoryTemplates(repository: Option<Repository>): seq<string> {
    match repository
    case None => []
    case Some(r) => if r.suite.None? then [r.url] else [r.url, r.suite.value]
  }

  function Resolved(repository: Option<Repository>, texts: seq<string>): Option<Repository>
    requires |texts| == |RepositoryTemplates(repository)|
  {
    match repository
    case None => None
    case Some(r) => Some(r.(url := texts[0], suite := if r.suite.None? then None else Some(texts[1])))
  }

  /** The templates filled in before the host settings are read, and those after them. */
  function BeforeSettings(profile: Profile, packages: PackageSet): seq<string> {
    packages.packages + [packages.service] + Destinations(profile.configuration)
  }

  function AfterSettings(profile: Profile, packages: PackageSet): seq<string> {
    Locations(profile.secrets) + RepositoryTemplates(packages.repository)
  }

  function Assembled(family: string, profile: Profile, packages: PackageSet, before: seq<string>,
                     settings: seq<Setting>, after: seq<string>): Actions
    requires |before| == |BeforeSettings(profile, packages)| && |after| == |AfterSettings(profile, packages)|
  {
    var n, m := |packages.packages|, |profile.secrets|;
    Actions(
      family, before[..n], before[n], Resolved(packages.repository, after[m..]),
      seq(|profile.configuration|, i requires 0 <= i < |profile.configuration| =>
            profile.configuration[i].(destination := before[n + 1 + i])),
      settings,
      seq(m, i requires 0 <= i < m => profile.secrets[i].(location := after[i])))
  }

  /** Everything the profile leaves open, resolved for this host and this request; the first
      thing that cannot be is the refusal. */
  function PlanActions(facts: Facts.HostFacts, profile: Profile, request: Request, scope: Scope): Result<Actions, ActionError> {
    var family, values := facts.os.family, Vocabulary(facts, request);
    if family !in profile.packages then Err(NoPackages(family))
    else
      var packages := profile.packages[family];
      var before :- FillAll(BeforeSettings(profile, packages), values);
      var settings :- ReadAll(profile.tunables, scope);
      var after :- FillAll(AfterSettings(profile, packages), values);
      Ok(Assembled(family, profile, packages, before, settings, after))
  }

  // ------------------------------------------------------------------------------ laws

  lemma {:induction false} FillAllIsExact(templates: seq<string>, values: Placeholders.Vocabulary)
    ensures FillAll(templates, values).Ok? <==> forall t | t in templates :: Placeholders.Fills(t, values)
  {
    if templates != [] {
      FillAllIsExact(templates[1..], values);
      Placeholders.SubstituteIsExact(templates[0], values);
      assert templates == [templates[0]] + templates[1..];
    }
  }

  /** The setting is not asked about, or asking comes to a value or to a missing fact. */
  predicate Readable(tunable: Tunable, scope: Scope) {
    tunable.observed.Some? ==>
      && Check(tunable.observed.value).Accepted?
      && (Evaluate(tunable.observed.value, scope).Val? || Evaluate(tunable.observed.value, scope).Missing?)
  }

  lemma ReadIsExact(tunable: Tunable, scope: Scope)
    ensures Read(tunable, scope).Ok? <==> Readable(tunable, scope)
  {
  }

  lemma {:induction false} ReadAllIsExact(tunables: seq<Tunable>, scope: Scope)
    ensures ReadAll(tunables, scope).Ok? <==> forall t | t in tunables :: Readable(t, scope)
    ensures ReadAll(tunables, scope).Ok? ==>
              |ReadAll(tunables, scope).value| == |tunables|
              && forall i | 0 <= i < |tunables| ::
                   Ok(ReadAll(tunables, scope).value[i].observed) == Read(tunables[i], scope)
                   && ReadAll(tunables, scope).value[i].tunable == tunables[i]
  {
    if tunables != [] {
      ReadAllIsExact(tunables[1..], scope);
      ReadIsExact(tunables[0], scope);
      assert tunables == [tunables[0]] + tunables[1..];
    }
  }

  predicate AboutASetting(e: ActionError) {
    e.WrongSetting? || e.Escaped?
  }

  lemma {:induction false} ReadAllBlames(tunables: seq<Tunable>, scope: Scope)
    ensures ReadAll(tunables, scope).Err? ==>
              AboutASetting(ReadAll(tunables, scope).error) && !Readable(ReadAll(tunables, scope).error.tunable, scope)
  {
    if tunables != [] {
      ReadAllBlames(tunables[1..], scope);
      ReadIsExact(tunables[0], scope);
    }
  }

  /** A refusal about a setting names one that cannot be read. */
  lemma ActionsBlame(facts: Facts.HostFacts, profile: Profile, request: Request, scope: Scope)
    ensures var actions := PlanActions(facts, profile, request, scope);
            actions.Err? && AboutASetting(actions.error) ==> !Readable(actions.error.tunable, scope)
  {
    ReadAllBlames(profile.tunables, scope);
  }

  /** What is to be done can be said exactly when the host's family has packages, every
      template the profile uses is filled in, and every setting can be read. */
  lemma ActionsExistExactly(facts: Facts.HostFacts, profile: Profile, request: Request, scope: Scope)
    ensures PlanActions(facts, profile, request, scope).Ok? <==> Provisionable(facts, profile, request, scope)
  {
    if facts.os.family in profile.packages {
      var packages := profile.packages[facts.os.family];
      FillAllIsExact(BeforeSettings(profile, packages), Vocabulary(facts, request));
      ReadAllIsExact(profile.tunables, scope);
      FillAllIsExact(AfterSettings(profile, packages), Vocabulary(facts, request));
    }
  }

  predicate Provisionable(facts: Facts.HostFacts, profile: Profile, request: Request, scope: Scope) {
    && facts.os.family in profile.packages
    && (var packages := profile.packages[facts.os.family];
        forall t | t in BeforeSettings(profile, packages) + AfterSettings(profile, packages) ::
          Placeholders.Fills(t, Vocabulary(facts, request)))
    && forall t | t in profile.tunables :: Readable(t, scope)
  }

  // ------------------------------------------------------------------------- more facts

  /** The refusal is that a template wanted for a name this host did not report. */
  predicate WantsAName(e: ActionError) {
    e.Unfilled? && e.fault.Unreported?
  }

  /** The refusal is about one of these settings, which the host had said nothing about
      before. */
  predicate NewlyWrong(tunables: seq<Tunable>, before: Scope, e: ActionError) {
    && AboutASetting(e) && e.tunable in tunables && Unseen(e.tunable, before)
  }

  /** The setting was asked about and the host had not said. */
  predicate Unseen(tunable: Tunable, before: Scope) {
    tunable.observed.Some? && Evaluate(tunable.observed.value, before).Missing?
  }

  /** The same settings, each seen to be what it was seen to be, or newly seen. */
  ghost predicate SettingsSettle(tunables: seq<Tunable>, s: Scope, before: seq<Setting>, after: seq<Setting>) {
    |before| == |after| == |tunables| && forall i | 0 <= i < |tunables| ::
      && before[i].tunable == after[i].tunable == tunables[i]
      && (before[i].observed.Some? ==>
            after[i].observed.Some? && Refines(before[i].observed.value, after[i].observed.value))
      && (before[i].observed.None? && after[i].observed.Some? ==> Unseen(tunables[i], s))
  }

  lemma ReadSettles(tunable: Tunable, s: Scope, t: Scope)
    requires ScopeRefines(s, t)
    requires tunable.observed.Some? ==> Monotone.SteadyIfRead(tunable.observed.value, s)
    ensures Read(tunable, t).Err? ==>
              Read(tunable, s) == Read(tunable, t) || NewlyWrong([tunable], s, Read(tunable, t).error)
    ensures Read(tunable, s).Err? ==> Read(tunable, t) == Read(tunable, s)
    ensures Read(tunable, s).Ok? && Read(tunable, s).value.Some? && Read(tunable, t).Ok? ==>
              Read(tunable, t).value.Some? && Refines(Read(tunable, s).value.value, Read(tunable, t).value.value)
    ensures Read(tunable, s) == Ok(None) && Read(tunable, t).Ok? && Read(tunable, t).value.Some? ==> Unseen(tunable, s)
  {
    if tunable.observed.Some? && Check(tunable.observed.value).Accepted? {
      Monotone.SteadyIsMonotone(tunable.observed.value, s, t);
      Sound.AcceptedEvaluationIsExpected(tunable.observed.value, s);
    }
  }

  lemma {:induction false} ReadAllSettles(tunables: seq<Tunable>, s: Scope, t: Scope)
    requires ScopeRefines(s, t)
    requires forall u | u in tunables && u.observed.Some? :: Monotone.SteadyIfRead(u.observed.value, s)
    ensures var x, y := ReadAll(tunables, s), ReadAll(tunables, t);
            || (x.Ok? && y.Ok? && SettingsSettle(tunables, s, x.value, y.value))
            || (x.Err? && y == x)
            || (y.Err? && NewlyWrong(tunables, s, y.error))
  {
    if tunables != [] {
      var u := tunables[0];
      assert u in tunables && forall other | other in tunables[1..] :: other in tunables;
      ReadSettles(u, s, t);
      ReadAllSettles(tunables[1..], s, t);
      if Read(u, s).Ok? && Read(u, t).Ok? && ReadAll(tunables[1..], s).Ok? && ReadAll(tunables[1..], t).Ok?
         && SettingsSettle(tunables[1..], s, ReadAll(tunables[1..], s).value, ReadAll(tunables[1..], t).value)
      {
        OneMoreSettles(tunables, s, Setting(u, Read(u, s).value), Setting(u, Read(u, t).value),
                       ReadAll(tunables[1..], s).value, ReadAll(tunables[1..], t).value);
      }
    }
  }

  lemma OneMoreSettles(tunables: seq<Tunable>, s: Scope, x: Setting, y: Setting, before: seq<Setting>, after: seq<Setting>)
    requires tunables != [] && SettingsSettle(tunables[1..], s, before, after)
    requires SettingsSettle([tunables[0]], s, [x], [y])
    ensures SettingsSettle(tunables, s, [x] + before, [y] + after)
  {
    assert [x][0] == x && [y][0] == y && [tunables[0]][0] == tunables[0];
  }

  lemma {:induction false} FillAllPersists(templates: seq<string>, v: Placeholders.Vocabulary, w: Placeholders.Vocabulary)
    requires Placeholders.Reveals(v, w)
    ensures FillAll(templates, v) == FillAll(templates, w) || (FillAll(templates, v).Err? && WantsAName(FillAll(templates, v).error))
  {
    if templates != [] {
      Placeholders.SubstitutePersists(templates[0], v, w);
      FillAllPersists(templates[1..], v, w);
    }
  }

  /** The same actions, with the host settings seen to be what they were, or newly seen. */
  ghost predicate SameActions(tunables: seq<Tunable>, s: Scope, before: Actions, after: Actions) {
    after == before.(settings := after.settings) && SettingsSettle(tunables, s, before.settings, after.settings)
  }

  /** With more facts, what is to be done is the same but for settings newly seen, and a
      refusal is the same, unless what was refused was a template wanting for a name, or
      what is refused is a setting that a newly reported fact shows to be written wrongly. */
  lemma ActionsSettle(f: Facts.HostFacts, g: Facts.HostFacts, profile: Profile, request: Request, s: Scope, t: Scope)
    requires ScopeRefines(s, t) && f.os.family == g.os.family
    requires Placeholders.Reveals(Vocabulary(f, request), Vocabulary(g, request))
    requires forall u | u in profile.tunables && u.observed.Some? :: Monotone.SteadyIfRead(u.observed.value, s)
    ensures var x, y := PlanActions(f, profile, request, s), PlanActions(g, profile, request, t);
            || (x.Ok? && y.Ok? && SameActions(profile.tunables, s, x.value, y.value))
            || (x.Err? && y == x)
            || (x.Err? && WantsAName(x.error))
            || (y.Err? && NewlyWrong(profile.tunables, s, y.error))
  {
    if f.os.family in profile.packages {
      var packages := profile.packages[f.os.family];
      FillAllPersists(BeforeSettings(profile, packages), Vocabulary(f, request), Vocabulary(g, request));
      ReadAllSettles(profile.tunables, s, t);
      FillAllPersists(AfterSettings(profile, packages), Vocabulary(f, request), Vocabulary(g, request));
    }
  }
}
