// Verdicts, severities and outcomes; the report they are put into, and its counts.
module PreflightModel {
  import opened Profiles
  import Sorting
  import Tally = Counting
  import Text

  datatype Verdict = Satisfied | Unmet | Undecidable

  datatype Outcome = Pass | Warned | Blocked | Skip

  /** Severity resolution: the whole of it. */
  function Resolved(verdict: Verdict, severity: Severity): Outcome {
    match verdict
    case Undecidable => Skip
    case Satisfied => Pass
    case Unmet => if severity.Block? then Blocked else Warned
  }

  datatype Source = Shared | Contributed

  datatype GateResult = GateResult(identifier: string, source: Source, severity: Severity, outcome: Outcome)

  function Rank(outcome: Outcome): nat {
    match outcome
    case Blocked => 0
    case Warned => 1
    case Skip => 2
    case Pass => 3
  }

  /** Report order: by outcome, blocks before everything else, and then by identifier. */
  predicate AtMost(a: GateResult, b: GateResult) {
    Rank(a.outcome) < Rank(b.outcome)
    || (Rank(a.outcome) == Rank(b.outcome) && Text.AtMost(a.identifier, b.identifier))
  }

  /** A run, its results ordered once. */
  function Of(results: seq<GateResult>): seq<GateResult> {
    Sorting.Sort(results, AtMost)
  }

  function Counting(results: seq<GateResult>, outcome: Outcome): nat {
    if results == [] then 0
    else (if results[0].outcome == outcome then 1 else 0) + Counting(results[1..], outcome)
  }

  predicate IsBlocked(results: seq<GateResult>) {
    exists r | r in results :: r.outcome.Blocked?
  }

  datatype Summary = Summary(pass: nat, warn: nat, block: nat, skip: nat)

  function Summarized(results: seq<GateResult>): Summary {
    Summary(Counting(results, Pass), Counting(results, Warned), Counting(results, Blocked), Counting(results, Skip))
  }

  // ------------------------------------------------------------------------------ laws

  lemma ReportOrderIsTotal()
    ensures Sorting.TotalPreorder(AtMost)
  {
    forall x, y ensures AtMost(x, y) || AtMost(y, x) {
      Text.BeforeTotal(x.identifier, y.identifier);
    }
    forall x, y, z | AtMost(x, y) && AtMost(y, z) ensures AtMost(x, z) {
      if Text.Before(x.identifier, y.identifier) && Text.Before(y.identifier, z.identifier) {
        Text.BeforeTransitive(x.identifier, y.identifier, z.identifier);
      }
    }
  }

  /** The report is the same results in report order. */
  lemma ReportIsSortedPermutation(results: seq<GateResult>)
    ensures Sorting.Sorted(Of(results), AtMost) && multiset(Of(results)) == multiset(results)
  {
    ReportOrderIsTotal();
    Sorting.SortSorts(results, AtMost);
  }

  ghost predicate DistinctIdentifiers(results: seq<GateResult>) {
    forall x, y | x in results && y in results && x.identifier == y.identifier :: x == y
  }

  /** Two runs of the same results read the same, in whatever order the rules were asked. */
  lemma ReportDoesNotDependOnOrder(a: seq<GateResult>, b: seq<GateResult>)
    requires multiset(a) == multiset(b) && DistinctIdentifiers(a)
    ensures Of(a) == Of(b)
  {
    ReportIsSortedPermutation(a);
    ReportIsSortedPermutation(b);
    assert forall x :: x in a <==> x in multiset(a);
    assert forall x :: x in Of(a) <==> x in multiset(Of(a));
    forall x, y | x in Of(a) && y in Of(a) && AtMost(x, y) && AtMost(y, x) ensures x == y {
      if x.identifier != y.identifier {
        Text.BeforeAsymmetric(x.identifier, y.identifier);
      }
    }
    Sorting.SortedIsUnique(Of(a), Of(b), AtMost);
  }

  lemma {:induction false} CountingSplits(results: seq<GateResult>, i: nat, outcome: Outcome)
    requires i < |results|
    ensures Counting(results, outcome) ==
            Counting(results[..i] + results[i + 1..], outcome) + (if results[i].outcome == outcome then 1 else 0)
  {
    var without := results[..i] + results[i + 1..];
    if i == 0 {
      assert without == results[1..];
    } else {
      CountingSplits(results[1..], i - 1, outcome);
      assert without[1..] == results[1..][..i - 1] + results[1..][i..];
    }
  }

  /** Counting does not depend on the order of the results. */
  lemma {:induction false} CountingOfPermutation(a: seq<GateResult>, b: seq<GateResult>, outcome: Outcome)
    requires multiset(a) == multiset(b)
    ensures Counting(a, outcome) == Counting(b, outcome)
  {
    assert |multiset(a)| == |a| && |multiset(b)| == |b|;
    if a != [] {
      assert a[0] in multiset(b);
      var i :| 0 <= i < |b| && b[i] == a[0];
      Sorting.TailOf(a);
      Sorting.WithoutOne(b, i);
      CountingOfPermutation(a[1..], b[..i] + b[i + 1..], outcome);
      CountingSplits(b, i, outcome);
    }
  }

  /** A count is the number of places in the run with that outcome. */
  lemma {:induction false} CountingIsPlaces(results: seq<GateResult>, outcome: Outcome)
    ensures Counting(results, outcome) == |Tally.Places(results, (r: GateResult) => r.outcome == outcome)|
  {
    if results != [] {
      var n := |results| - 1;
      CountingSplits(results, n, outcome);
      assert results[..n] + results[n + 1..] == results[..n];
      CountingIsPlaces(results[..n], outcome);
      Tally.PlacesOfLast(results, (r: GateResult) => r.outcome == outcome);
    }
  }

  /** The four counts add up to the number of rules, and a run is blocked exactly when the
      count of blocks is not zero. */
  lemma {:induction false} CountsAddUp(results: seq<GateResult>)
    ensures var s := Summarized(results);
            s.pass + s.warn + s.block + s.skip == |results| && (IsBlocked(results) <==> s.block > 0)
  {
    if results != [] {
      CountsAddUp(results[1..]);
      assert results == [results[0]] + results[1..];
    }
  }

  /** Both hold of the report as well as of the run, and the report counts the same. */
  lemma ReportCounts(results: seq<GateResult>)
    ensures Summarized(Of(results)) == Summarized(results)
    ensures IsBlocked(Of(results)) <==> IsBlocked(results)
    ensures |Of(results)| == |results|
  {
    ReportIsSortedPermutation(results);
    CountingOfPermutation(Of(results), results, Pass);
    CountingOfPermutation(Of(results), results, Warned);
    CountingOfPermutation(Of(results), results, Blocked);
    CountingOfPermutation(Of(results), results, Skip);
    CountsAddUp(results);
    CountsAddUp(Of(results));
  }

  /** Asking one more rule never turns a refusal into a plan. */
  lemma AddingARuleNeverUnblocks(results: seq<GateResult>, extra: GateResult, i: nat)
    requires i <= |results| && IsBlocked(Of(results))
    ensures IsBlocked(Of(results[..i] + [extra] + results[i..]))
  {
    ReportCounts(results);
    var more := results[..i] + [extra] + results[i..];
    ReportCounts(more);
    var r :| r in results && r.outcome.Blocked?;
    assert results == results[..i] + results[i..];
    assert r in more;
  }
}
