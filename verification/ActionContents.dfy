// What is in the actions of a plan: each text the one its own template stands for on this
// host and for this request, each setting beside what it is now; and what a refusal is about.
module ActionContents {
  import opened Wrappers
  import opened Values
  import opened Expressions
  import opened Changes
  import opened Profiles
  import Facts
  import Placeholders

  // ------------------------------------------------------------------------- vocabulary

  /** What comes before the first dot, or all of it where there is none. */
  ghost predicate BeforeDot(version: string, major: string) {
    && major <= version && '.' !in major && (major == version || version[|major|] == '.')
  }

  lemma {:induction false} MajorExactly(version: string)
    ensures forall major :: Major(version) == major <==> BeforeDot(version, major)
  {
    if version != [] && version[0] != '.' {
      var rest := version[1..];
      MajorExactly(rest);
      assert BeforeDot(rest, Major(rest));
      assert version == [version[0]] + rest;
      forall major | BeforeDot(version, major) ensures major == Major(version) {
        assert major != [];
        assert major == [version[0]] + major[1..];
        assert BeforeDot(rest, major[1..]);
      }
      assert BeforeDot(version, Major(version));
    }
  }

  /** A template may use ten names. Five stand for what was requested and five for the system
      of the host, the major version for what its version says before the first dot; only the
      code name may be wanting. */
  lemma VocabularyExactly(facts: Facts.HostFacts, request: Request)
    ensures var v := Vocabulary(facts, request);
            && v.Keys == {"engine", "instance", "version", "environment", "host", "os.family", "os.distro", "os.version", "os.major",
                          "os.codename"}
            && v["engine"] == Some(request.engine) && v["instance"] == Some(request.instance)
            && v["version"] == Some(request.version) && v["environment"] == Some(request.environment)
            && v["host"] == Some(request.host)
            && v["os.family"] == Some(facts.os.family) && v["os.distro"] == Some(facts.os.distro)
            && v["os.version"] == Some(facts.os.version) && v["os.codename"] == facts.os.codename
            && v["os.major"].Some? && BeforeDot(facts.os.version, v["os.major"].value)
  {
    MajorExactly(facts.os.version);
  }

  // -------------------------------------------------------------------- one text, one setting

  /** The text is the template with the value of every name in its place, and nothing is left
      open in it. */
  ghost predicate Stands(template: string, values: Placeholders.Vocabulary, text: string) {
    Placeholders.Fills(template, values) && text == Placeholders.Filled(Placeholders.PiecesOf(template), values)
  }

  /** The texts of the templates, place by place. */
  ghost predicate StandFor(templates: seq<string>, values: Placeholders.Vocabulary, texts: seq<string>) {
    |texts| == |templates| && forall i | 0 <= i < |templates| :: Stands(templates[i], values, texts[i])
  }

  lemma {:induction false} FillAllStands(templates: seq<string>, values: Placeholders.Vocabulary)
    ensures FillAll(templates, values).Ok? ==> StandFor(templates, values, FillAll(templates, values).value)
    ensures FillAll(templates, values).Err? ==> Open(templates, values, FillAll(templates, values).error)
  {
    if templates != [] {
      Placeholders.SubstituteIsExact(templates[0], values);
      FillAllStands(templates[1..], values);
      assert templates == [templates[0]] + templates[1..];
    }
  }

  /** The refusal names one of the templates and why it cannot be filled in. */
  ghost predicate Open(templates: seq<string>, values: Placeholders.Vocabulary, e: ActionError) {
    && e.Unfilled? && e.template in templates && !Placeholders.Fills(e.template, values)
    && Placeholders.Substitute(e.template, values) == Err(e.fault)
  }

  /** What a setting is seen to be: the value of the expression that reads it, and nothing
      where there is none or the host did not say. */
  ghost predicate Seen(tunable: Tunable, scope: Scope, observed: Option<Value>) {
    match tunable.observed
    case None => observed == None
    case Some(e) =>
      && Check(e).Accepted?
      && (observed.Some? ==> Evaluate(e, scope) == Val(observed.value)) && (observed.None? ==> Evaluate(e, scope).Missing?)
  }

  ghost predicate AllSeen(tunables: seq<Tunable>, scope: Scope, settings: seq<Setting>) {
    |settings| == |tunables|
    && forall i | 0 <= i < |tunables| :: settings[i].tunable == tunables[i] && Seen(tunables[i], scope, settings[i].observed)
  }

  lemma SeenExactly(tunable: Tunable, scope: Scope)
    ensures forall observed :: Read(tunable, scope) == Ok(observed) <==> Seen(tunable, scope, observed)
  {
  }

  lemma ReadAllSees(tunables: seq<Tunable>, scope: Scope)
    requires ReadAll(tunables, scope).Ok?
    ensures AllSeen(tunables, scope, ReadAll(tunables, scope).value)
  {
    ReadAllIsExact(tunables, scope);
    forall i | 0 <= i < |tunables| ensures Seen(tunables[i], scope, ReadAll(tunables, scope).value[i].observed) {
      SeenExactly(tunables[i], scope);
    }
  }

  // --------------------------------------------------------------------------- all of them

  /** Every entry with its own text in place of its own template, and otherwise as it was. */
  ghost predicate ConfigurationStands(entries: seq<ConfigurationFile>, values: Placeholders.Vocabulary, done: seq<ConfigurationFile>) {
    |done| == |entries|
    && forall i | 0 <= i < |entries| ::
         done[i] == entries[i].(destination := done[i].destination) && Stands(entries[i].destination, values, done[i].destination)
  }

  ghost predicate SecretsStand(secrets: seq<Secret>, values: Placeholders.Vocabulary, done: seq<Secret>) {
    |done| == |secrets|
    && forall i | 0 <= i < |secrets| ::
         done[i] == secrets[i].(location := done[i].location) && Stands(secrets[i].location, values, done[i].location)
  }

  ghost predicate RepositoryStands(repository: Option<Repository>, values: Placeholders.Vocabulary, done: Option<Repository>) {
    match repository
    case None => done == None
    case Some(r) =>
      && done.Some? && done.value == r.(url := done.value.url, suite := done.value.suite)
      && Stands(r.url, values, done.value.url)
      && (r.suite.None? ==> done.value.suite == None)
      && (r.suite.Some? ==> done.value.suite.Some? && Stands(r.suite.value, values, done.value.suite.value))
  }

  /** What is to be done is what the profile asks for the family of the host, for these values. */
  ghost predicate Carried(facts: Facts.HostFacts, profile: Profile, values: Placeholders.Vocabulary, scope: Scope, actions: Actions) {
    && facts.os.family in profile.packages && actions.family == facts.os.family
    && (var packages := profile.packages[facts.os.family];
        && StandFor(packages.packages, values, actions.installed)
        && Stands(packages.service, values, actions.service)
        && RepositoryStands(packages.repository, values, actions.repository))
    && ConfigurationStands(profile.configuration, values, actions.configuration)
    && SecretsStand(profile.secrets, values, actions.secrets)
    && AllSeen(profile.tunables, scope, actions.settings)
  }

  lemma AssembledBefore(profile: Profile, packages: PackageSet, values: Placeholders.Vocabulary, before: seq<string>)
    requires StandFor(BeforeSettings(profile, packages), values, before)
    ensures var n, m := |packages.packages|, |profile.configuration|;
            && |before| == n + 1 + m && StandFor(packages.packages, values, before[..n])
            && Stands(packages.service, values, before[n])
            && forall i | 0 <= i < m :: Stands(profile.configuration[i].destination, values, before[n + 1 + i])
  {
    var templates, n := BeforeSettings(profile, packages), |packages.packages|;
    assert templates[n] == packages.service;
    forall i | 0 <= i < n ensures Stands(packages.packages[i], values, before[..n][i]) {
      assert templates[i] == packages.packages[i];
    }
    forall i | 0 <= i < |profile.configuration| ensures Stands(profile.configuration[i].destination, values, before[n + 1 + i]) {
      assert templates[n + 1 + i] == Destinations(profile.configuration)[i];
    }
  }

  lemma AssembledAfter(profile: Profile, packages: PackageSet, values: Placeholders.Vocabulary, after: seq<string>)
    requires StandFor(AfterSettings(profile, packages), values, after)
    ensures var m := |profile.secrets|;
            && |after| == m + |RepositoryTemplates(packages.repository)|
            && (forall i | 0 <= i < m :: Stands(profile.secrets[i].location, values, after[i]))
            && RepositoryStands(packages.repository, values, Resolved(packages.repository, after[m..]))
  {
    var templates, m := AfterSettings(profile, packages), |profile.secrets|;
    forall i | 0 <= i < m ensures Stands(profile.secrets[i].location, values, after[i]) {
      assert templates[i] == Locations(profile.secrets)[i];
    }
    if packages.repository.Some? {
      assert templates[m] == packages.repository.value.url;
      if packages.repository.value.suite.Some? {
        assert templates[m + 1] == packages.repository.value.suite.value;
      }
    }
  }

  lemma AssembledStands(facts: Facts.HostFacts, profile: Profile, values: Placeholders.Vocabulary, scope: Scope,
                        before: seq<string>, settings: seq<Setting>, after: seq<string>)
    requires facts.os.family in profile.packages
    requires StandFor(BeforeSettings(profile, profile.packages[facts.os.family]), values, before)
    requires StandFor(AfterSettings(profile, profile.packages[facts.os.family]), values, after)
    requires AllSeen(profile.tunables, scope, settings)
    ensures Carried(facts, profile, values, scope,
                    Assembled(facts.os.family, profile, profile.packages[facts.os.family], before, settings, after))
  {
    AssembledBefore(profile, profile.packages[facts.os.family], values, before);
    AssembledAfter(profile, profile.packages[facts.os.family], values, after);
  }

  /** Everything a plan would do is what the profile says, with every template filled in for
      this host and this request, each text in the place of its own template. */
  lemma ActionsAreCarried(facts: Facts.HostFacts, profile: Profile, request: Request, scope: Scope)
    requires PlanActions(facts, profile, request, scope).Ok?
    ensures Carried(facts, profile, Vocabulary(facts, request), scope, PlanActions(facts, profile, request, scope).value)
  {
    var values, packages := Vocabulary(facts, request), profile.packages[facts.os.family];
    FillAllStands(BeforeSettings(profile, packages), values);
    FillAllStands(AfterSettings(profile, packages), values);
    ReadAllSees(profile.tunables, scope);
    AssembledStands(facts, profile, values, scope,
                    FillAll(BeforeSettings(profile, packages), values).value, ReadAll(profile.tunables, scope).value,
                    FillAll(AfterSettings(profile, packages), values).value);
  }

  // --------------------------------------------------------------------------- what is refused

  /** The setting cannot be read, and why. */
  ghost predicate CannotBeRead(tunables: seq<Tunable>, scope: Scope, e: ActionError) {
    && AboutASetting(e) && e.tunable in tunables && e.tunable.observed.Some?
    && var expr := e.tunable.observed.value;
       match e
       case WrongSetting(_, Unreadable(culprit)) => Check(expr) == Refused(culprit)
       case WrongSetting(_, Failed(fault)) => Check(expr).Accepted? && Evaluate(expr, scope) == Wrong(fault)
       case Escaped(_, panic) => Check(expr).Accepted? && Evaluate(expr, scope) == Crash(panic)
       case _ => false
  }

  lemma {:induction false} ReadAllRefuses(tunables: seq<Tunable>, scope: Scope)
    ensures ReadAll(tunables, scope).Err? ==> CannotBeRead(tunables, scope, ReadAll(tunables, scope).error)
  {
    if tunables != [] {
      ReadAllRefuses(tunables[1..], scope);
      assert tunables == [tunables[0]] + tunables[1..];
    }
  }

  /** The packages, the service and the destinations are filled in before any setting is read,
      and the secrets and the repository after all of them: a refusal is about the first of
      these that cannot be done, and true of it. */
  lemma ActionsAreRefusedInOrder(facts: Facts.HostFacts, profile: Profile, request: Request, scope: Scope)
    ensures var r, family, values := PlanActions(facts, profile, request, scope), facts.os.family, Vocabulary(facts, request);
            if family !in profile.packages then r == Err(NoPackages(family))
            else
              var before, after := BeforeSettings(profile, profile.packages[family]), AfterSettings(profile, profile.packages[family]);
              if exists t | t in before :: !Placeholders.Fills(t, values) then r.Err? && Open(before, values, r.error)
              else if exists t | t in profile.tunables :: !Readable(t, scope) then r.Err? && CannotBeRead(profile.tunables, scope, r.error)
              else if exists t | t in after :: !Placeholders.Fills(t, values) then r.Err? && Open(after, values, r.error)
              else r.Ok?
  {
    if facts.os.family in profile.packages {
      var values, packages := Vocabulary(facts, request), profile.packages[facts.os.family];
      FillAllIsExact(BeforeSettings(profile, packages), values);
      FillAllStands(BeforeSettings(profile, packages), values);
      ReadAllIsExact(profile.tunables, scope);
      ReadAllRefuses(profile.tunables, scope);
      FillAllIsExact(AfterSettings(profile, packages), values);
      FillAllStands(AfterSettings(profile, packages), values);
    }
  }
}
