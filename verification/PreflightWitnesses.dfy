// Two facts whose absence reads as an empty list, and a host on which collecting one of them
// turns a verdict around.
module PreflightWitnesses {
  import opened Wrappers
  import opened Values
  import opened Expressions
  import opened Facts
  import opened PreflightModel
  import opened SharedRules
  import Preflight
  import ScopeBuilder
  import ScopeReading
  import PlanWitnesses

  // ------------------------------------------------------------------ options of a mount

  function Root(options: seq<string>): Mount {
    Mount("/", "ext4", 1024, 512, None, None, options)
  }

  /** The host, with the options of its only mount as far as they were collected. */
  function Mounted(c: Context, options: seq<string>): Context {
    c.(facts := c.facts.(mounts := [Root(options)]))
  }

  lemma RootCarries(options: seq<string>, path: string)
    ensures Deepest([Root(options)], path) == Some(Root(options))
  {
    PlanWitnesses.EverythingCarriesRoot(path);
    assert [Root(options)][1..] == [];
  }

  lemma PlannedIsMounted(c: Context)
    requires PlanWitnesses.IsPlanned(c)
    ensures Mounted(c, []) == c && ContextReveals(c, Mounted(c, ["ro"]))
    ensures c.profile.gates == [] && c.paths != [] && c.paths[0].path == "/data" && c.paths[0].purpose == "data" && |c.paths| == 1
  {
  }

  lemma OptionsTurnReadOnly(c: Context)
    requires PlanWitnesses.IsPlanned(c)
    ensures TurnsReadOnly(c, Mounted(c, ["ro"])) && PathsWritable(c).Satisfied?
  {
    PlannedIsMounted(c);
    RootCarries([], "/data");
    RootCarries(["ro"], "/data");
    assert ScopeBuilder.NewlyReadOnly(c.facts, Mounted(c, ["ro"]).facts, c.paths[0].path);
  }

  lemma NoGatesRun(c: Context)
    requires c.profile.gates == []
    ensures Preflight.Results(c) == Ok(Preflight.SharedResults(AllShared(), c))
    ensures Preflight.Run(c) == Ok(Of(Preflight.SharedResults(AllShared(), c)))
  {
    assert Preflight.ContributedResults(c.profile.gates, Preflight.ScopeOf(c)) == Ok([]);
    assert Preflight.SharedResults(AllShared(), c) + [] == Preflight.SharedResults(AllShared(), c);
  }

  lemma ReadOnlyIsRead(c: Context, options: seq<string>)
    requires PlanWitnesses.IsPlanned(c)
    ensures Evaluate(ScopeReading.FactAt("path", "data", "read_only"), Preflight.ScopeOf(Mounted(c, options)))
            == Val(Bool("ro" in options))
  {
    var d := Mounted(c, options);
    PlannedIsMounted(c);
    RootCarries(options, "/data");
    ScopeReading.PathGroupIsRead(d.facts, d.profile, d.request, d.paths, 0, "read_only");
  }

  /** Before the options of its mount were collected the path is one that can be written to,
      the scope says that it is not read only, and nothing blocks the host; once they are
      known to be those of a read-only mount, all three are the other way around. */
  lemma OptionsOnceCollected(c: Context)
    requires PlanWitnesses.IsPlanned(c)
    ensures var d := Mounted(c, ["ro"]); var leaf := ScopeReading.FactAt("path", "data", "read_only");
            && ContextReveals(c, d) && PathsWritable(c).Satisfied? && PathsWritable(d).Unmet?
            && Evaluate(leaf, Preflight.ScopeOf(c)) == Val(Bool(false))
            && Evaluate(leaf, Preflight.ScopeOf(d)) == Val(Bool(true))
            && Preflight.Run(c).Ok? && !IsBlocked(Preflight.Run(c).value)
            && Preflight.Run(d).Ok? && IsBlocked(Preflight.Run(d).value)
  {
    var d := Mounted(c, ["ro"]);
    PlannedIsMounted(c);
    OptionsTurnReadOnly(c);
    PathsWritableExactly(c, d);
    ReadOnlyIsRead(c, []);
    ReadOnlyIsRead(c, ["ro"]);
    PlanWitnesses.NoGateBlocks(c);
    BlockedByOptions(c, d);
  }

  lemma BlockedByOptions(c: Context, d: Context)
    requires ContextReveals(c, d) && TurnsReadOnly(c, d) && c.profile.gates == []
    ensures Preflight.Run(d).Ok? && IsBlocked(Preflight.Run(d).value)
  {
    NoGatesRun(d);
    Preflight.TurnsReadOnlyBlocks(c, d);
    ReportCounts(Preflight.SharedResults(AllShared(), d));
  }

  // --------------------------------------------------------------- open ports of a firewall

  /** The host behind an active firewall, with its open ports as far as they were collected. */
  function Filtered(c: Context, openPorts: seq<int>): Context {
    c.(facts := c.facts.(firewall := Some(Firewall("ufw", true, openPorts))))
  }

  lemma OnlyTheFirewallIsAsked(question: Question, c: Context, openPorts: seq<int>)
    requires !question.AskFirewallState?
    ensures Answer(question, Filtered(c, openPorts)) == Answer(question, c)
  {
  }

  lemma {:induction false} NoneCounted(results: seq<GateResult>, outcome: PreflightModel.Outcome)
    requires forall r | r in results :: r.outcome != outcome
    ensures Counting(results, outcome) == 0
  {
    if results != [] {
      NoneCounted(results[1..], outcome);
    }
  }

  lemma WarnedAt(c: Context, i: nat)
    requires PlanWitnesses.IsPlanned(c) && i < |AllShared()|
    ensures Preflight.SharedResults(AllShared(), Filtered(c, [5432]))[i].outcome != Warned
    ensures Preflight.SharedResults(AllShared(), Filtered(c, []))[i].outcome == Warned <==> i == Preflight.FIREWALL
  {
    var question := AllShared()[i].question;
    Preflight.FirewallIsLast();
    Preflight.SharedAt(AllShared(), Filtered(c, []), i);
    Preflight.SharedAt(AllShared(), Filtered(c, [5432]), i);
    PlanWitnesses.NothingFallsShort(question, c);
    if !question.AskFirewallState? {
      OnlyTheFirewallIsAsked(question, c, []);
      OnlyTheFirewallIsAsked(question, c, [5432]);
    }
  }

  lemma WarningsCounted(c: Context)
    requires PlanWitnesses.IsPlanned(c)
    ensures Counting(Preflight.SharedResults(AllShared(), Filtered(c, [])), Warned) == 1
    ensures Counting(Preflight.SharedResults(AllShared(), Filtered(c, [5432])), Warned) == 0
  {
    var x, y := Preflight.SharedResults(AllShared(), Filtered(c, [])), Preflight.SharedResults(AllShared(), Filtered(c, [5432]));
    forall i | 0 <= i < |AllShared()| ensures y[i].outcome != Warned && (x[i].outcome == Warned <==> i == Preflight.FIREWALL) {
      WarnedAt(c, i);
    }
    Preflight.FirewallIsLast();
    OneCounted(x, Preflight.FIREWALL, Warned);
    NoneCounted(y, Warned);
  }

  lemma OneCounted(results: seq<GateResult>, k: nat, outcome: PreflightModel.Outcome)
    requires k < |results| && forall i | 0 <= i < |results| :: results[i].outcome == outcome <==> i == k
    ensures Counting(results, outcome) == 1
  {
    CountingSplits(results, k, outcome);
    var rest := results[..k] + results[k + 1..];
    forall i | 0 <= i < |rest| ensures rest[i].outcome != outcome {
      assert rest[i] == results[if i < k then i else i + 1];
    }
    NoneCounted(rest, outcome);
  }

  /** Before its open ports were collected an active firewall is warned about, once they are
      known to have the port among them it is not: a warning was lifted by collecting a fact. */
  lemma PortsOnceCollected(c: Context)
    requires PlanWitnesses.IsPlanned(c)
    ensures var before, after := Filtered(c, []), Filtered(c, [5432]);
            && ContextReveals(before, after) && FirewallState(before).Unmet? && FirewallState(after).Satisfied?
            && Preflight.Run(before).Ok? && Summarized(Preflight.Run(before).value).warn == 1
            && Preflight.Run(after).Ok? && Summarized(Preflight.Run(after).value).warn == 0
  {
    WarningsCounted(c);
    FilteredReport(c, []);
    FilteredReport(c, [5432]);
    FilteredReveals(c);
  }

  lemma FilteredReveals(c: Context)
    requires PlanWitnesses.IsPlanned(c)
    ensures var before, after := Filtered(c, []), Filtered(c, [5432]);
            ContextReveals(before, after) && FirewallState(before).Unmet? && FirewallState(after).Satisfied?
  {
  }

  lemma FilteredReport(c: Context, openPorts: seq<int>)
    requires PlanWitnesses.IsPlanned(c)
    ensures var d := Filtered(c, openPorts);
            Preflight.Run(d).Ok?
            && Summarized(Preflight.Run(d).value) == Summarized(Preflight.SharedResults(AllShared(), d))
  {
    NoGatesRun(Filtered(c, openPorts));
    ReportCounts(Preflight.SharedResults(AllShared(), Filtered(c, openPorts)));
  }
}
