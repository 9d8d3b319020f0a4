// A preflight run: the shared rules, the profile's own, and what becomes of both with more facts.
module Preflight {
  import opened Wrappers
  import opened Values
  import opened Expressions
  import opened Profiles
  import opened PreflightModel
  import opened SharedRules
  import ScopeBuilder
  import Monotone = ExpressionMonotone

  datatype Field = AppliesTo | Condition

  datatype Reason = Unreadable(culprit: Node) | Failed(fault: Fault)

  /** A rule that is written wrongly stops the run; so does an exception nothing handles. */
  datatype RunError = RuleError(rule: GateRule, field: Field, reason: Reason) | Escaped(panic: Panic)

  /** What one expression of a rule comes to: an answer, or none for want of a fact. */
  function Asks(rule: GateRule, field: Field, expr: Node, s: Scope): Result<Option<bool>, RunError> {
    match Check(expr)
    case Refused(culprit) => Err(RuleError(rule, field, Unreadable(culprit)))
    case Accepted =>
      match TruthOf(expr, s)
      case Val(answer) => Ok(Some(answer))
      case Missing(_) => Ok(None)
      case Wrong(fault) => Err(RuleError(rule, field, Failed(fault)))
      case Crash(panic) => Err(RunError.Escaped(panic))
  }

  function EvaluateRule(rule: GateRule, s: Scope): Result<PreflightModel.Verdict, RunError> {
    var applies :- if rule.appliesTo.None? then Ok(Some(true)) else Asks(rule, AppliesTo, rule.appliesTo.value, s);
    if applies != Some(true) then Ok(Undecidable)
    else
      var met :- Asks(rule, Condition, rule.expr, s);
      match met
      case None => Ok(Undecidable)
      case Some(yes) => Ok(Asked(yes))
  }

  function SharedResults(rules: seq<SharedRule>, c: Context): (results: seq<GateResult>)
    ensures |results| == |rules|
  {
    if rules == [] then []
    else
      var r := rules[0];
      [GateResult(r.identifier, Shared, r.severity, Resolved(Answer(r.question, c), r.severity))]
      + SharedResults(rules[1..], c)
  }

  function ContributedResults(gates: seq<GateRule>, s: Scope): Result<seq<GateResult>, RunError> {
    if gates == [] then Ok([])
    else
      var rule := gates[0];
      var verdict :- EvaluateRule(rule, s);
      var rest :- ContributedResults(gates[1..], s);
      Ok([GateResult(rule.identifier, Contributed, rule.severity, Resolved(verdict, rule.severity))] + rest)
  }

  function ScopeOf(c: Context): Scope {
    ScopeBuilder.BuildScope(c.facts, c.profile, c.request, c.paths)
  }

  /** Every result, in the order the rules are asked. */
  function Results(c: Context): Result<seq<GateResult>, RunError> {
    var contributed :- ContributedResults(c.profile.gates, ScopeOf(c));
    Ok(SharedResults(AllShared(), c) + contributed)
  }

  /** The run, its results in report order. */
  function Run(c: Context): Result<seq<GateResult>, RunError> {
    var results :- Results(c);
    Ok(Of(results))
  }

  // ------------------------------------------------------------------------------ laws

  /** Every comparison that asking the rule reaches is settled, in its condition only where
      the rule applies. */
  predicate GateSteady(rule: GateRule, s: Scope) {
    && (rule.appliesTo.Some? ==> Monotone.SteadyIfRead(rule.appliesTo.value, s))
    && (rule.appliesTo.None? || Asks(rule, AppliesTo, rule.appliesTo.value, s) == Ok(Some(true)) ==>
          Monotone.SteadyIfRead(rule.expr, s))
  }

  /** As it is wherever no comparison in the rule has a group with a hole in it. */
  lemma SolidGatesAreSteady(rule: GateRule, s: Scope)
    requires Monotone.ComparesSolids(rule.expr, s)
    requires rule.appliesTo.Some? ==> Monotone.ComparesSolids(rule.appliesTo.value, s)
    ensures GateSteady(rule, s)
  {
    Monotone.SolidsAreSteadyIfRead(rule.expr, s);
    if rule.appliesTo.Some? {
      Monotone.SolidsAreSteadyIfRead(rule.appliesTo.value, s);
    }
  }

  /** What more facts may do to one result: decide it, if nothing had. */
  ghost predicate Settles(before: GateResult, after: GateResult) {
    && after == before.(outcome := after.outcome)
    && (before.outcome.Skip? || after.outcome == before.outcome)
  }

  ghost predicate AllSettle(before: seq<GateResult>, after: seq<GateResult>) {
    |before| == |after| && forall i | 0 <= i < |before| :: Settles(before[i], after[i])
  }

  lemma AsksIsMonotone(rule: GateRule, field: Field, expr: Node, s: Scope, t: Scope)
    requires ScopeRefines(s, t) && Monotone.SteadyIfRead(expr, s)
    ensures Asks(rule, field, expr, s) == Ok(None) || Asks(rule, field, expr, s) == Asks(rule, field, expr, t)
  {
    if Check(expr).Accepted? {
      Monotone.TruthIsMonotone(expr, s, t);
    }
  }

  /** A fact the rule asked for is missing: the one its applying turns on, or, where it
      applies, one its condition reads. */
  predicate LackedAFact(rule: GateRule, s: Scope) {
    var applies := if rule.appliesTo.None? then Ok(Some(true)) else Asks(rule, AppliesTo, rule.appliesTo.value, s);
    applies == Ok(None) || (applies == Ok(Some(true)) && Asks(rule, Condition, rule.expr, s) == Ok(None))
  }

  /** More facts change what a rule comes to, a verdict or a mistake, only where it lacked
      one, and there it had come to nothing. */
  lemma RuleIsMonotone(rule: GateRule, s: Scope, t: Scope)
    requires ScopeRefines(s, t) && GateSteady(rule, s)
    ensures LackedAFact(rule, s) || EvaluateRule(rule, s) == EvaluateRule(rule, t)
    ensures LackedAFact(rule, s) ==> EvaluateRule(rule, s) == Ok(Undecidable)
  {
    if rule.appliesTo.Some? {
      AsksIsMonotone(rule, AppliesTo, rule.appliesTo.value, s, t);
    }
    if rule.appliesTo.None? || Asks(rule, AppliesTo, rule.appliesTo.value, s) == Ok(Some(true)) {
      AsksIsMonotone(rule, Condition, rule.expr, s, t);
    }
  }

  /** The mistake is that of a rule that had lacked a fact, asked before any rule whose
      mistake was known. */
  ghost predicate NewlyStopped(gates: seq<GateRule>, s: Scope, t: Scope, error: RunError) {
    exists j | 0 <= j < |gates| ::
      && LackedAFact(gates[j], s) && EvaluateRule(gates[j], t) == Err(error)
      && forall k | 0 <= k <= j :: EvaluateRule(gates[k], s).Ok?
  }

  /** A run that stopped still stops, and stops at the same mistake or at a new one before it;
      a run that did not stop does so only at a new one. */
  ghost predicate StopsAgain<T>(gates: seq<GateRule>, s: Scope, t: Scope, before: Result<T, RunError>, after: Result<T, RunError>) {
    && (before.Err? ==> after.Err?)
    && (after.Err? ==> (before.Err? && before.error == after.error) || NewlyStopped(gates, s, t, after.error))
  }

  lemma StopsLater(gates: seq<GateRule>, s: Scope, t: Scope, error: RunError)
    requires gates != [] && EvaluateRule(gates[0], s).Ok? && NewlyStopped(gates[1..], s, t, error)
    ensures NewlyStopped(gates, s, t, error)
  {
    var rest := gates[1..];
    var j :| 0 <= j < |rest| && LackedAFact(rest[j], s) && EvaluateRule(rest[j], t) == Err(error)
             && forall k | 0 <= k <= j :: EvaluateRule(rest[k], s).Ok?;
    assert gates[j + 1] == rest[j];
    forall k | 0 <= k <= j + 1 ensures EvaluateRule(gates[k], s).Ok? {
      assert k > 0 ==> gates[k] == rest[k - 1];
    }
  }

  lemma {:induction false} ContributedIsMonotone(gates: seq<GateRule>, s: Scope, t: Scope)
    requires ScopeRefines(s, t) && forall rule | rule in gates :: GateSteady(rule, s)
    ensures StopsAgain(gates, s, t, ContributedResults(gates, s), ContributedResults(gates, t))
    ensures ContributedResults(gates, s).Ok? && ContributedResults(gates, t).Ok? ==>
              AllSettle(ContributedResults(gates, s).value, ContributedResults(gates, t).value)
  {
    if gates != [] {
      assert gates[0] in gates;
      RuleIsMonotone(gates[0], s, t);
      if EvaluateRule(gates[0], s).Ok? {
        if EvaluateRule(gates[0], t).Ok? {
          ContributedIsMonotone(gates[1..], s, t);
          if ContributedResults(gates[1..], t).Err? && NewlyStopped(gates[1..], s, t, ContributedResults(gates[1..], t).error) {
            StopsLater(gates, s, t, ContributedResults(gates[1..], t).error);
          }
        } else {
          assert NewlyStopped(gates, s, t, EvaluateRule(gates[0], t).error);
        }
      }
    }
  }

  // ------------------------------------------------------------------- whole runs of them

  /** Where the rule on the firewall is among the shared ones: the last of them. */
  const FIREWALL := 19

  lemma FirewallIsLast()
    ensures |AllShared()| == FIREWALL + 1 && AllShared()[FIREWALL] == SharedRule("firewall.state", Warn, AskFirewallState)
    ensures forall i | 0 <= i < FIREWALL :: !AllShared()[i].question.AskFirewallState?
  {
  }

  lemma {:induction false} SharedAt(rules: seq<SharedRule>, c: Context, i: nat)
    requires i < |rules|
    ensures SharedResults(rules, c)[i] ==
            GateResult(rules[i].identifier, Shared, rules[i].severity, Resolved(Answer(rules[i].question, c), rules[i].severity))
  {
    if i > 0 {
      SharedAt(rules[1..], c, i - 1);
    }
  }

  /** A warning about the firewall that became a pass. */
  ghost predicate Lifted(before: GateResult, after: GateResult) {
    before == GateResult("firewall.state", Shared, Warn, Warned) && after == before.(outcome := Pass)
  }

  ghost predicate AllSettleBut(k: nat, before: seq<GateResult>, after: seq<GateResult>) {
    && |before| == |after| && k < |before| && Lifted(before[k], after[k])
    && forall i | 0 <= i < |before| && i != k :: Settles(before[i], after[i])
  }

  /** What more facts may do to the results of a run that is not blocked by them: decide
      those that were skipped, and lift the warning about the firewall where the port is
      newly one it lets through, which it always does. */
  ghost predicate ResultsSettle(c: Context, d: Context, before: seq<GateResult>, after: seq<GateResult>) {
    if NewlyAdmitted(c, d) then AllSettleBut(FIREWALL, before, after) else AllSettle(before, after)
  }

  lemma SharedSettlesAt(c: Context, d: Context, i: nat)
    requires ContextReveals(c, d) && !TurnsReadOnly(c, d) && i < |AllShared()|
    ensures var before, after := SharedResults(AllShared(), c)[i], SharedResults(AllShared(), d)[i];
            if i == FIREWALL && NewlyAdmitted(c, d) then Lifted(before, after) else Settles(before, after)
  {
    FirewallIsLast();
    SharedAt(AllShared(), c, i);
    SharedAt(AllShared(), d, i);
    SharedRulesAreMonotone(AllShared()[i].question, c, d);
  }

  lemma SharedSettle(c: Context, d: Context)
    requires ContextReveals(c, d) && !TurnsReadOnly(c, d)
    ensures ResultsSettle(c, d, SharedResults(AllShared(), c), SharedResults(AllShared(), d))
  {
    FirewallIsLast();
    forall i | 0 <= i < |AllShared()|
      ensures var before, after := SharedResults(AllShared(), c)[i], SharedResults(AllShared(), d)[i];
              if i == FIREWALL && NewlyAdmitted(c, d) then Lifted(before, after) else Settles(before, after)
    {
      SharedSettlesAt(c, d, i);
    }
  }

  lemma BothSettle(c: Context, d: Context, x: seq<GateResult>, y: seq<GateResult>, before: seq<GateResult>, after: seq<GateResult>)
    requires ResultsSettle(c, d, x, y) && AllSettle(before, after)
    ensures ResultsSettle(c, d, x + before, y + after)
  {
  }

  /** A planned path that turns out to be read only is refused by the run, whatever else. */
  lemma TurnsReadOnlyBlocks(c: Context, d: Context)
    requires ContextReveals(c, d) && TurnsReadOnly(c, d)
    ensures IsBlocked(SharedResults(AllShared(), d))
  {
    PathsWritableExactly(c, d);
    WritableIsAsked();
    SharedAt(AllShared(), d, WRITABLE);
    assert SharedResults(AllShared(), d)[WRITABLE] in SharedResults(AllShared(), d);
  }

  const WRITABLE := 6

  lemma WritableIsAsked()
    ensures |AllShared()| > WRITABLE && AllShared()[WRITABLE] == SharedRule("disk.paths_writable", Block, AskPathsWritable)
  {
  }

  /** Collecting a fact that was missing changes only results that were skipped, and the
      warning about the firewall, rule by rule, or blocks the host by itself. A run a broken
      rule stopped stays stopped, by the same mistake unless one in front of it lacked a fact. */
  lemma RunsSettle(c: Context, d: Context)
    requires ContextReveals(c, d)
    requires forall rule | rule in c.profile.gates :: GateSteady(rule, ScopeOf(c))
    ensures TurnsReadOnly(c, d) && Results(d).Ok? ==> IsBlocked(Results(d).value)
    ensures !TurnsReadOnly(c, d) ==> StopsAgain(c.profile.gates, ScopeOf(c), ScopeOf(d), Results(c), Results(d))
    ensures !TurnsReadOnly(c, d) && Results(c).Ok? && Results(d).Ok? ==>
              ResultsSettle(c, d, Results(c).value, Results(d).value)
  {
    if TurnsReadOnly(c, d) {
      TurnsReadOnlyBlocks(c, d);
    } else {
      ScopeBuilder.MoreFactsRefineTheScope(c.facts, d.facts, c.profile, c.request, c.paths);
      ContributedIsMonotone(c.profile.gates, ScopeOf(c), ScopeOf(d));
      SharedSettle(c, d);
      if Results(c).Ok? && Results(d).Ok? {
        BothSettle(c, d, SharedResults(AllShared(), c), SharedResults(AllShared(), d),
                   ContributedResults(c.profile.gates, ScopeOf(c)).value, ContributedResults(d.profile.gates, ScopeOf(d)).value);
      }
    }
  }

  lemma {:induction false} SettlingOnlyAdds(before: seq<GateResult>, after: seq<GateResult>, outcome: PreflightModel.Outcome)
    requires AllSettle(before, after) && !outcome.Skip?
    ensures Counting(before, outcome) <= Counting(after, outcome)
    ensures Counting(before, Skip) >= Counting(after, Skip)
  {
    if before != [] {
      assert Settles(before[0], after[0]);
      SettlingOnlyAdds(before[1..], after[1..], outcome);
    }
  }

  lemma LiftingAdds(k: nat, before: seq<GateResult>, after: seq<GateResult>, outcome: PreflightModel.Outcome)
    requires AllSettleBut(k, before, after) && !outcome.Skip?
    ensures Counting(before, outcome) <= Counting(after, outcome) + (if outcome.Warned? then 1 else 0)
    ensures Counting(before, Skip) >= Counting(after, Skip)
  {
    var x, y := before[..k] + before[k + 1..], after[..k] + after[k + 1..];
    forall i | 0 <= i < |x| ensures Settles(x[i], y[i]) {
      var j := if i < k then i else i + 1;
      assert Settles(before[j], after[j]);
    }
    SettlingOnlyAdds(x, y, outcome);
    CountingSplits(before, k, outcome);
    CountingSplits(after, k, outcome);
    CountingSplits(before, k, Skip);
    CountingSplits(after, k, Skip);
  }

  /** Passes and blocks never go down and skips never go up; warnings go down by no more
      than `lifted`. */
  predicate CountsSettle(before: Summary, after: Summary, lifted: nat) {
    before.pass <= after.pass && before.warn <= after.warn + lifted && before.block <= after.block && after.skip <= before.skip
  }

  lemma SettledCounts(c: Context, d: Context, x: seq<GateResult>, y: seq<GateResult>)
    requires ResultsSettle(c, d, x, y)
    ensures CountsSettle(Summarized(x), Summarized(y), if NewlyAdmitted(c, d) then 1 else 0)
  {
    if NewlyAdmitted(c, d) {
      LiftingAdds(FIREWALL, x, y, Pass);
      LiftingAdds(FIREWALL, x, y, Warned);
      LiftingAdds(FIREWALL, x, y, Blocked);
    } else {
      SettlingOnlyAdds(x, y, Pass);
      SettlingOnlyAdds(x, y, Warned);
      SettlingOnlyAdds(x, y, Blocked);
    }
  }

  /** Of the report: passes and blocks never go down, skips never go up, and of the warnings
      only the one about the firewall is ever lifted, unless a planned path turns out to be
      read only, and then the host is refused. One that was refused is still refused. */
  lemma ReportsSettle(c: Context, d: Context)
    requires ContextReveals(c, d)
    requires forall rule | rule in c.profile.gates :: GateSteady(rule, ScopeOf(c))
    requires Run(c).Ok? && Run(d).Ok?
    ensures TurnsReadOnly(c, d) ==> IsBlocked(Run(d).value)
    ensures !TurnsReadOnly(c, d) ==>
              CountsSettle(Summarized(Run(c).value), Summarized(Run(d).value), if NewlyAdmitted(c, d) then 1 else 0)
    ensures IsBlocked(Run(c).value) ==> IsBlocked(Run(d).value)
  {
    RunsSettle(c, d);
    var x, y := Results(c).value, Results(d).value;
    ReportCounts(x);
    ReportCounts(y);
    if !TurnsReadOnly(c, d) {
      SettledCounts(c, d, x, y);
      CountsAddUp(x);
      CountsAddUp(y);
    }
  }

  /** A contributed rule passes exactly when it applies, or says nothing about when it
      does, and its condition comes to yes: silence and a missing fact are never a pass. */
  lemma PassIsAnAnswer(rule: GateRule, s: Scope)
    ensures EvaluateRule(rule, s) == Ok(Satisfied) <==>
            && (rule.appliesTo.Some? ==>
                  Check(rule.appliesTo.value).Accepted? && TruthOf(rule.appliesTo.value, s) == Val(true))
            && Check(rule.expr).Accepted? && TruthOf(rule.expr, s) == Val(true)
  {
  }
}
