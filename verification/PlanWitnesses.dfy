// One host and one profile on which a fact that is newly reported, or that is missing,
// decides whether there is a plan although no gate reads it.
module PlanWitnesses {
  import opened Wrappers
  import opened Values
  import opened Expressions
  import opened Facts
  import opened Profiles
  import opened SharedRules
  import Changes
  import Decisions
  import Placeholders
  import Plans
  import Preflight
  import PreflightModel
  import ScopeBuilder
  import ScopeReading
  import Sizing
  import SizingLaws
  import SizingOrder
  import SizingOrderLaws
  import SizingRules

  // --------------------------------------------------------------------------- the host

  function Machine(codename: Option<string>, swappiness: Option<int>): HostFacts {
    HostFacts(
      "db1", OperatingSystem("debian", "debian", "12", codename, None, None), "x86_64", Cpu(4, None), Memory(1024, None, None),
      [Mount("/", "ext4", 1024, 512, None, None, [])], [], [], [], Privileges("root", true),
      None, None, Some(KernelSettings(swappiness, None, None)), None)
  }

  /** The setting is read, and divided into a hundred. */
  function Share(): Tunable {
    Tunable("vm.swappiness", Num(Whole(10)),
            Some(Binary(Div, Constant(Num(Whole(100))), ScopeReading.FactAt("host", "kernel", "swappiness"))), map[])
  }

  /** The whole group the setting is in is read. */
  function Everything(): Tunable {
    Tunable("vm.swappiness", Num(Whole(10)), Some(Attribute(Name("host"), "kernel")), map[])
  }

  const NAME := "db"
  const CONF := "/etc/db"
  const VENDOR := "https://vendor"
  const SUITE := "{{ os.codename }}-pgdg"

  function OneRule(): SizingRules.Rule {
    SizingRules.Rule("db.size", "size", Constant(Num(Whole(1))), SizingRules.Count, None, None, None, None)
  }

  function Engine(tunables: seq<Tunable>, suite: Option<string>): Profile {
    Profile("db", "1", "1", 5432, "main", None, [], None, None, [], [], None, [],
            map["debian" := PackageSet([NAME], NAME, Some(Repository("vendor", VENDOR, suite, map[])))],
            [OneRule()], [ConfigurationFile("db.conf", CONF, map[])], tunables, [])
  }

  function Planned(codename: Option<string>, swappiness: Option<int>, tunables: seq<Tunable>, suite: Option<string>): Context {
    Context(Machine(codename, swappiness), Engine(tunables, suite), Request("db1", "db", "1", false, "test", "main", 5432),
            [PlannedPath("data", "/data", None, [])],
            SupportedVersion("1", 1000, ["x86_64"], [SupportedOS("debian", ["12"])]), 0)
  }

  ghost predicate IsPlanned(c: Context) {
    exists codename, swappiness, tunables, suite :: c == Planned(codename, swappiness, tunables, suite)
  }

  // --------------------------------------------------------------------- no gate blocks it

  lemma EverythingCarriesRoot(path: string)
    ensures Carries(Mount("/", "ext4", 1024, 512, None, None, []), path)
  {
    assert "/"[1..] == [];
    assert PathComponents("/") == [];
  }

  /** Nothing that is asked of this host falls short. */
  lemma NothingFallsShort(question: Question, c: Context)
    requires IsPlanned(c)
    ensures !Answer(question, c).Unmet?
  {
    match question
    case AskPathsWritable =>
      EverythingCarriesRoot("/data");
      assert MountFor(c.facts, "/data") == Some(c.facts.mounts[0]);
    case AskOsSupported =>
      assert c.version.supportedOs[0] in c.version.supportedOs && "12" in c.version.supportedOs[0].versions;
    case AskArchSupported => assert "x86_64" in c.version.arch;
    case _ =>
  }

  lemma {:induction false} SharedAreAnswers(rules: seq<SharedRule>, c: Context)
    requires forall rule | rule in rules :: !Answer(rule.question, c).Unmet?
    ensures forall r | r in Preflight.SharedResults(rules, c) :: !r.outcome.Blocked?
  {
    if rules != [] {
      SharedAreAnswers(rules[1..], c);
      assert rules[0] in rules;
    }
  }

  lemma NoGateBlocks(c: Context)
    requires IsPlanned(c)
    ensures Preflight.Run(c).Ok? && !PreflightModel.IsBlocked(Preflight.Run(c).value)
  {
    forall rule | rule in AllShared() ensures !Answer(rule.question, c).Unmet? {
      NothingFallsShort(rule.question, c);
    }
    SharedAreAnswers(AllShared(), c);
    var results := Preflight.SharedResults(AllShared(), c);
    assert Preflight.ContributedResults(c.profile.gates, Preflight.ScopeOf(c)) == Ok([]);
    assert results + [] == results;
    PreflightModel.ReportCounts(results);
  }

  // ------------------------------------------------------------------ everything is sized

  lemma OneRuleIsOrdered()
    ensures SizingOrder.EvaluationOrder([OneRule()]).Ok?
  {
    var rules := [OneRule()];
    var graph := SizingOrderLaws.ReadsOf(rules);
    assert Names(OneRule().expr) == {} && OneRule() in rules;
    forall p | p in graph ensures graph[p] == {} {
      assert SizingOrder.Formulas(rules)[p] == OneRule().expr;
    }
    SizingOrderLaws.OrderExistsExactly(rules);
    forall ring ensures !SizingOrderLaws.IsRing(ring, graph) {
      NoReadsNoRing(ring, graph);
    }
  }

  lemma NoReadsNoRing(ring: seq<string>, graph: SizingOrder.Needs)
    requires forall p | p in graph :: graph[p] == {}
    ensures !SizingOrderLaws.IsRing(ring, graph)
  {
    if SizingOrderLaws.IsRing(ring, graph) {
      RingReads(ring, graph);
    }
  }

  lemma RingReads(ring: seq<string>, graph: SizingOrder.Needs)
    requires SizingOrderLaws.IsRing(ring, graph)
    ensures exists p :: p in graph && graph[p] != {}
  {
    assert ring[0 + 1] in graph[ring[0]];
  }

  lemma OneRuleIsSized(s: Scope)
    ensures Sizing.EvaluateRules([OneRule()], s).Ok?
  {
    var values: Scope := map["size" := Num(Whole(1))];
    OneRuleIsOrdered();
    OneRuleGives(s + values);
    assert SizingLaws.Solution(SizingRules.Size, [OneRule()], s, values);
    SizingLaws.EvaluationIsTheSolution([OneRule()], s);
  }

  lemma OneRuleGives(s: Scope)
    ensures SizingLaws.Gives(SizingRules.Size, OneRule(), s, Num(Whole(1)))
  {
    assert Check(OneRule().expr).Accepted? && Evaluate(OneRule().expr, s) == Val(Num(Whole(1)));
  }

  // --------------------------------------------------------------------- what it waits for

  function SuiteOf(c: Context): Option<string>
    requires IsPlanned(c)
  {
    c.profile.packages["debian"].repository.value.suite
  }

  lemma TemplatesAre(c: Context)
    requires IsPlanned(c)
    ensures var packages := c.profile.packages["debian"];
            && Changes.BeforeSettings(c.profile, packages) == [NAME, NAME, CONF]
            && Changes.AfterSettings(c.profile, packages) ==
               if SuiteOf(c).None? then [VENDOR] else [VENDOR, SuiteOf(c).value]
  {
    assert Changes.Destinations(c.profile.configuration) == [CONF] && Changes.Locations(c.profile.secrets) == [];
  }

  predicate AllFill(templates: seq<string>, values: Placeholders.Vocabulary) {
    forall t | t in templates :: Placeholders.Fills(t, values)
  }

  lemma LiteralsAreBraceless()
    ensures Placeholders.Braceless(NAME) && Placeholders.Braceless(CONF) && Placeholders.Braceless(VENDOR)
  {
  }

  lemma OnlyTheSuiteMatters(name: string, path: string, url: string, suite: Option<string>, values: Placeholders.Vocabulary)
    requires Placeholders.Braceless(name) && Placeholders.Braceless(path) && Placeholders.Braceless(url)
    ensures AllFill([name, name, path] + if suite.None? then [url] else [url, suite.value], values) <==>
            (suite.Some? ==> Placeholders.Fills(suite.value, values))
  {
    Placeholders.BracelessFills(name, values);
    Placeholders.BracelessFills(path, values);
    Placeholders.BracelessFills(url, values);
    AllButTheSuite(t => Placeholders.Fills(t, values), name, path, url, suite);
  }

  lemma AllButTheSuite(fills: string -> bool, name: string, path: string, url: string, suite: Option<string>)
    requires fills(name) && fills(path) && fills(url)
    ensures var all := [name, name, path] + if suite.None? then [url] else [url, suite.value];
            (forall t | t in all :: fills(t)) <==> (suite.Some? ==> fills(suite.value))
  {
    if suite.Some? {
      assert ([name, name, path] + [url, suite.value])[4] == suite.value;
    }
  }

  lemma ProvisionableExactly(c: Context, s: Scope)
    requires IsPlanned(c)
    ensures Changes.Provisionable(c.facts, c.profile, c.request, s) <==>
            (SuiteOf(c).Some? ==> Placeholders.Fills(SuiteOf(c).value, Changes.Vocabulary(c.facts, c.request)))
            && forall t | t in c.profile.tunables :: Changes.Readable(t, s)
  {
    var packages, values := c.profile.packages["debian"], Changes.Vocabulary(c.facts, c.request);
    TemplatesAre(c);
    LiteralsAreBraceless();
    OnlyTheSuiteMatters(NAME, CONF, VENDOR, SuiteOf(c), values);
    assert c.facts.os.family == "debian";
    assert AllFill(Changes.BeforeSettings(c.profile, packages) + Changes.AfterSettings(c.profile, packages), values) <==>
           (SuiteOf(c).Some? ==> Placeholders.Fills(SuiteOf(c).value, values));
  }

  predicate Presentable(t: Tunable, s: Scope) {
    Changes.Readable(t, s) && Decisions.Showable(t, s)
  }

  predicate AllPresentable(tunables: seq<Tunable>, s: Scope) {
    forall t | t in tunables :: Presentable(t, s)
  }

  lemma OnePresentable(tunable: Tunable, s: Scope)
    ensures AllPresentable([tunable], s) <==> Presentable(tunable, s)
  {
    assert [tunable][0] == tunable;
  }

  /** Unblocked, as it always is, such a host waits for nothing but its suite and its settings. */
  lemma PlannedExactly(digest: Plans.Digest, c: Context, report: seq<PreflightModel.GateResult>, w: Plans.Writing)
    requires IsPlanned(c) && !PreflightModel.IsBlocked(report)
    ensures Plans.BuildPlan(digest, report, c, w).Ok? <==>
            (SuiteOf(c).Some? ==> Placeholders.Fills(SuiteOf(c).value, Changes.Vocabulary(c.facts, c.request)))
            && AllPresentable(c.profile.tunables, Preflight.ScopeOf(c))
  {
    OneRuleIsSized(Preflight.ScopeOf(c));
    assert c.profile.sizing == [OneRule()];
    ProvisionableExactly(c, Preflight.ScopeOf(c));
    Plans.BuiltPlanIsWhatItCallsItself(digest, report, c, w);
  }

  // ------------------------------------------------------------ a fact that is newly known

  lemma DividedInto(fact: Node, s: Scope)
    requires Check(fact).Accepted?
    ensures var e := Binary(Div, Constant(Num(Whole(100))), fact);
            && Check(e).Accepted?
            && (Evaluate(fact, s).Missing? ==> Evaluate(e, s) == Evaluate(fact, s))
            && (Evaluate(fact, s) == Val(Num(Whole(0))) ==> Evaluate(e, s) == Wrong(ByZero))
  {
    assert Evaluate(Constant(Num(Whole(100))), s) == Val(Num(Whole(100)));
  }

  lemma ShareIs(c: Context)
    requires c.facts.kernel.Some?
    ensures var fact := ScopeReading.FactAt("host", "kernel", "swappiness"); var seen := c.facts.kernel.value.swappiness;
            && Check(fact).Accepted?
            && (seen.None? ==> Evaluate(fact, Preflight.ScopeOf(c)) == Missing(fact))
            && (seen.Some? ==> Evaluate(fact, Preflight.ScopeOf(c)) == Val(Num(Whole(seen.value))))
  {
    ScopeReading.KernelIsRead(c.facts, c.profile, c.request, c.paths);
  }

  lemma SharePresentable(c: Context)
    requires IsPlanned(c)
    ensures var seen := c.facts.kernel.value.swappiness;
            && (seen.None? ==> Presentable(Share(), Preflight.ScopeOf(c)))
            && (seen == Some(0) ==> !Presentable(Share(), Preflight.ScopeOf(c)))
  {
    ShareIs(c);
    DividedInto(ScopeReading.FactAt("host", "kernel", "swappiness"), Preflight.ScopeOf(c));
  }

  /** The host, with its swappiness as far as it was collected. */
  function Sharing(swappiness: Option<int>): Context {
    Planned(None, swappiness, [Share()], None)
  }

  lemma SharingIsPlanned(swappiness: Option<int>)
    ensures var c := Sharing(swappiness);
            IsPlanned(c) && c.profile.tunables == [Share()] && SuiteOf(c).None? && c.facts.kernel.value.swappiness == swappiness
  {
  }

  lemma SharingExactly(digest: Plans.Digest, swappiness: Option<int>, report: seq<PreflightModel.GateResult>, w: Plans.Writing)
    requires !PreflightModel.IsBlocked(report)
    ensures Plans.BuildPlan(digest, report, Sharing(swappiness), w).Ok? <==>
            Presentable(Share(), Preflight.ScopeOf(Sharing(swappiness)))
  {
    SharingIsPlanned(swappiness);
    PlannedExactly(digest, Sharing(swappiness), report, w);
    OnePresentable(Share(), Preflight.ScopeOf(Sharing(swappiness)));
  }

  lemma MoreIsKnown(swappiness: int)
    ensures ContextReveals(Sharing(None), Sharing(Some(swappiness)))
  {
  }

  /** The host has a plan before its swappiness was collected. */
  lemma PlannedBeforeItIsKnown(digest: Plans.Digest, report: seq<PreflightModel.GateResult>, w: Plans.Writing)
    requires !PreflightModel.IsBlocked(report)
    ensures Plans.BuildPlan(digest, report, Sharing(None), w).Ok?
  {
    SharingIsPlanned(None);
    SharePresentable(Sharing(None));
    SharingExactly(digest, None, report, w);
  }

  /** The same host, known to swap at zero, has none, though no gate blocks it. */
  lemma RefusedOnceItIsKnown(digest: Plans.Digest, report: seq<PreflightModel.GateResult>, w: Plans.Writing)
    requires !PreflightModel.IsBlocked(report)
    ensures Plans.BuildPlan(digest, report, Sharing(Some(0)), w).Err?
    ensures ContextReveals(Sharing(None), Sharing(Some(0)))
  {
    SharingIsPlanned(Some(0));
    SharePresentable(Sharing(Some(0)));
    SharingExactly(digest, Some(0), report, w);
    MoreIsKnown(0);
  }

  // ---------------------------------------------------------------- a hole in what is shown

  /** The host, reading the whole group of kernel settings beside one of them. */
  function Showing(): Context {
    Planned(None, None, [Everything()], None)
  }

  lemma ShowingIsPlanned()
    ensures IsPlanned(Showing()) && Showing().profile.tunables == [Everything()] && SuiteOf(Showing()).None?
  {
  }

  lemma HoleIsNotPresentable(tunable: Tunable, s: Scope, v: Value)
    requires tunable.observed.Some? && Check(tunable.observed.value).Accepted?
    requires Evaluate(tunable.observed.value, s) == Val(v) && !Reported(v)
    ensures Changes.Readable(tunable, s) && !Presentable(tunable, s)
  {
  }

  lemma KernelHasAHole()
    ensures !Reported(ScopeBuilder.KernelGroup(Some(KernelSettings(None, None, None))))
  {
    var group := ScopeBuilder.KernelGroup(Some(KernelSettings(None, None, None)));
    assert "swappiness" in group.members && !Reported(group.members["swappiness"]);
  }

  lemma EverythingIsAccepted()
    ensures Check(Everything().observed.value).Accepted?
  {
    assert Check(Name("host")).Accepted?;
  }

  lemma GroupHasAHole(c: Context)
    requires c.facts.kernel == Some(KernelSettings(None, None, None))
    ensures Changes.Readable(Everything(), Preflight.ScopeOf(c)) && !Presentable(Everything(), Preflight.ScopeOf(c))
  {
    KernelHasAHole();
    EverythingIsAccepted();
    ScopeReading.KernelGroupIsRead(c.facts, c.profile, c.request, c.paths);
    HoleIsNotPresentable(Everything(), Preflight.ScopeOf(c), ScopeBuilder.KernelGroup(c.facts.kernel));
  }

  /** A setting may be read as a whole group, and the group may have a hole in it: reading
      it is no mistake, and there is no plan, since the document cannot be written. */
  lemma HoleCannotBeWritten(digest: Plans.Digest, report: seq<PreflightModel.GateResult>, w: Plans.Writing)
    requires !PreflightModel.IsBlocked(report)
    ensures Plans.BuildPlan(digest, report, Showing(), w).Err?
  {
    ShowingIsPlanned();
    GroupHasAHole(Showing());
    PlannedExactly(digest, Showing(), report, w);
    OnePresentable(Everything(), Preflight.ScopeOf(Showing()));
  }

  // -------------------------------------------------------------------- a name that is missing

  /** The host, installing from a repository keyed by its code name. */
  function Keyed(codename: Option<string>): Context {
    Planned(codename, None, [], Some(SUITE))
  }

  lemma SuiteIs()
    ensures Placeholders.PiecesOf(SUITE) == [Placeholders.Hole("os.codename")] + Placeholders.Letters("-pgdg")
  {
    CodenameIsSpellable();
    Placeholders.HoleScans("os.codename", "-pgdg");
    Placeholders.BracelessIsLetters("-pgdg");
    SuiteIsWritten();
  }

  lemma CodenameIsSpellable()
    ensures Placeholders.Spellable("os.codename")
  {
    Placeholders.DottedIsSpellable("os", "codename");
    assert "os" + "." + "codename" == "os.codename";
  }

  lemma SuiteIsWritten()
    ensures "{{ " + "os.codename" + " }}" + "-pgdg" == SUITE
  {
  }

  /** There is no plan for it exactly while the code name was not collected, or is one no
      template can carry. */
  lemma CodenameDecides(digest: Plans.Digest, codename: Option<string>, report: seq<PreflightModel.GateResult>, w: Plans.Writing)
    requires !PreflightModel.IsBlocked(report)
    ensures Plans.BuildPlan(digest, report, Keyed(codename), w).Ok? <==>
            codename.Some? && !Placeholders.HasBraces(codename.value + "-pgdg")
  {
    KeyedIsPlanned(codename);
    SuiteFills(Changes.Vocabulary(Keyed(codename).facts, Keyed(codename).request), codename);
    PlannedExactly(digest, Keyed(codename), report, w);
  }

  lemma KeyedIsPlanned(codename: Option<string>)
    ensures var c := Keyed(codename);
            IsPlanned(c) && SuiteOf(c) == Some(SUITE)
            && Changes.Vocabulary(c.facts, c.request)["os.codename"] == codename
            && AllPresentable(c.profile.tunables, Preflight.ScopeOf(c))
  {
  }

  lemma SuiteFills(values: Placeholders.Vocabulary, codename: Option<string>)
    requires "os.codename" in values && values["os.codename"] == codename
    ensures Placeholders.Fills(SUITE, values) <==> codename.Some? && !Placeholders.HasBraces(codename.value + "-pgdg")
  {
    SuiteIs();
    HoleThenLetters("os.codename", "-pgdg", values);
  }

  lemma HoleThenLetters(name: string, rest: string, values: Placeholders.Vocabulary)
    requires Placeholders.Braceless(rest)
    ensures var pieces := [Placeholders.Hole(name)] + Placeholders.Letters(rest);
            && (Placeholders.AllReported(pieces, values) <==> Placeholders.Has(values, name))
            && (Placeholders.Has(values, name) ==> Placeholders.Filled(pieces, values) == values[name].value + rest)
  {
    var pieces := [Placeholders.Hole(name)] + Placeholders.Letters(rest);
    Placeholders.BracelessIsLetters(rest);
    Placeholders.LettersFill(rest, values);
    assert pieces[0] == Placeholders.Hole(name) && pieces[1..] == Placeholders.Letters(rest);
  }
}
