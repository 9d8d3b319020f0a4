// Ordering sizing rules so that what one reads is sized before it, or naming a ring of them.
module SizingOrder {
  import opened Wrappers
  import opened Expressions
  import opened SizingRules
  import Text

  type Needs = map<string, set<string>>

  function Declared(rules: seq<Rule>): (params: set<string>)
    ensures forall i | 0 <= i < |rules| :: rules[i].parameter in params
  {
    set r | r in rules :: r.parameter
  }

  /** The formula behind each parameter; a parameter set twice keeps the later one. */
  function Formulas(rules: seq<Rule>): (m: map<string, Node>)
    ensures m.Keys == Declared(rules)
  {
    if rules == [] then map[]
    else
      var n := |rules| - 1;
      assert rules == rules[..n] + [rules[n]];
      Formulas(rules[..n])[rules[n].parameter := rules[n].expr]
  }

  /** What each parameter waits for: every other parameter its formula reads. */
  function NeedsOf(rules: seq<Rule>): (needs: Needs)
    ensures needs.Keys == Declared(rules)
  {
    var formulas := Formulas(rules);
    map p | p in Declared(rules) :: Names(formulas[p]) * (Declared(rules) - {p})
  }

  function FirstUnreadable(rules: seq<Rule>): Option<PlanError> {
    if rules == [] then None
    else
      match Check(rules[0].expr)
      case Refused(culprit) => Some(SizingError(rules[0], Unreadable(culprit)))
      case Accepted => FirstUnreadable(rules[1..])
  }

  function FirstSelfReader(rules: seq<Rule>, formulas: map<string, Node>): Option<PlanError>
    requires Declared(rules) <= formulas.Keys
  {
    if rules == [] then None
    else if rules[0].parameter in Names(formulas[rules[0].parameter]) then
      Some(SizingError(rules[0], ReadsItself))
    else
      assert Declared(rules[1..]) <= Declared(rules);
      FirstSelfReader(rules[1..], formulas)
  }

  /** The rules still without a place whose needs have all been settled, in file order. */
  function Ready(remaining: seq<Rule>, settled: set<string>, needs: Needs): (ready: seq<Rule>)
    requires Declared(remaining) <= needs.Keys
    ensures forall r :: r in ready <==> r in remaining && needs[r.parameter] <= settled
  {
    if remaining == [] then []
    else
      assert Declared(remaining[1..]) <= Declared(remaining);
      var rest := Ready(remaining[1..], settled, needs);
      if needs[remaining[0].parameter] <= settled then [remaining[0]] + rest else rest
  }

  /** The rules whose parameter has not been settled, in file order. */
  function Waiting(rules: seq<Rule>, settled: set<string>): (waiting: seq<Rule>)
    ensures forall r :: r in waiting <==> r in rules && r.parameter !in settled
    ensures |waiting| <= |rules|
    ensures (exists r :: r in rules && r.parameter in settled) ==> |waiting| < |rules|
  {
    if rules == [] then []
    else
      var rest := Waiting(rules[1..], settled);
      if rules[0].parameter in settled then rest else [rules[0]] + rest
  }

  /** What the loop keeps true: whatever a waiting rule needs is settled or still waiting,
      and no rule waits for itself. */
  ghost predicate Closed(remaining: seq<Rule>, settled: set<string>, needs: Needs) {
    && Declared(remaining) <= needs.Keys
    && (forall r | r in remaining :: needs[r.parameter] <= settled + Declared(remaining))
    && (forall r | r in remaining :: r.parameter !in needs[r.parameter] && r.parameter !in settled)
  }

  /** Every waiting parameter waits for another waiting parameter. */
  ghost predicate Stuck(waiting: set<string>, needs: Needs) {
    && waiting <= needs.Keys
    && forall p | p in waiting :: p !in needs[p] && needs[p] * waiting != {}
  }

  lemma NotReadyMeansStuck(remaining: seq<Rule>, settled: set<string>, needs: Needs)
    requires Closed(remaining, settled, needs) && Ready(remaining, settled, needs) == []
    ensures Stuck(Declared(remaining), needs)
  {
    forall p | p in Declared(remaining) ensures p !in needs[p] && needs[p] * Declared(remaining) != {} {
      var r :| r in remaining && r.parameter == p;
      assert r !in Ready(remaining, settled, needs);
      var q :| q in needs[p] && q !in settled;
      assert q in needs[p] * Declared(remaining);
    }
  }

  /** What a round settles, and what it leaves waiting. */
  function SettledNext(remaining: seq<Rule>, settled: set<string>, needs: Needs): set<string>
    requires Declared(remaining) <= needs.Keys
  {
    settled + Declared(Ready(remaining, settled, needs))
  }

  function LeftNext(remaining: seq<Rule>, settled: set<string>, needs: Needs): seq<Rule>
    requires Declared(remaining) <= needs.Keys
  {
    Waiting(remaining, SettledNext(remaining, settled, needs))
  }

  function NamedRing(remaining: seq<Rule>, needs: Needs): PlanError
    requires remaining != [] && Stuck(Declared(remaining), needs)
  {
    SizingError(remaining[0], Waits(Cycle(remaining[0].parameter, Declared(remaining), needs)))
  }

  function After(ordered: seq<Rule>, rest: Result<seq<Rule>, PlanError>): Result<seq<Rule>, PlanError> {
    if rest.Ok? then Ok(ordered + rest.value) else rest
  }

  /** The order, round by round: every rule that is ready, then what that leaves. */
  function Ordered(remaining: seq<Rule>, settled: set<string>, needs: Needs): Result<seq<Rule>, PlanError>
    requires Closed(remaining, settled, needs)
    decreases |remaining|
  {
    if remaining == [] then Ok([])
    else if Ready(remaining, settled, needs) == [] then
      NotReadyMeansStuck(remaining, settled, needs);
      Err(NamedRing(remaining, needs))
    else
      StaysClosed(remaining, settled, needs);
      After(Ready(remaining, settled, needs),
            Ordered(LeftNext(remaining, settled, needs), SettledNext(remaining, settled, needs), needs))
  }

  lemma StaysClosed(remaining: seq<Rule>, settled: set<string>, needs: Needs)
    requires Closed(remaining, settled, needs) && Ready(remaining, settled, needs) != []
    ensures Closed(LeftNext(remaining, settled, needs), SettledNext(remaining, settled, needs), needs)
    ensures |LeftNext(remaining, settled, needs)| < |remaining|
  {
    var ready := Ready(remaining, settled, needs);
    var settled' := SettledNext(remaining, settled, needs);
    var left := LeftNext(remaining, settled, needs);
    assert ready[0] in remaining && ready[0].parameter in settled';
    forall r | r in left ensures needs[r.parameter] <= settled' + Declared(left) {
      forall q | q in needs[r.parameter] && q !in settled' ensures q in Declared(left) {
        var other :| other in remaining && other.parameter == q;
        assert other in left;
      }
    }
  }

  function Cycle(start: string, waiting: set<string>, needs: Needs): seq<string>
    requires Stuck(waiting, needs) && start in waiting
  {
    Ring([start], waiting, needs)
  }

  /** The walk from one parameter to the next it waits for, until one comes round again. */
  function Ring(walk: seq<string>, waiting: set<string>, needs: Needs): seq<string>
    requires Stuck(waiting, needs) && IsWalk(walk, waiting, needs)
    decreases |waiting| - |walk|
  {
    var following := Next(walk, waiting, needs);
    if following in walk then walk[IndexOf(walk, following)..] + [following]
    else
      WalkGrows(walk, waiting, needs);
      Ring(walk + [following], waiting, needs)
  }

  function Next(walk: seq<string>, waiting: set<string>, needs: Needs): string
    requires Stuck(waiting, needs) && IsWalk(walk, waiting, needs)
  {
    Text.Least(needs[walk[|walk| - 1]] * waiting)
  }

  /** A path through waiting parameters that has not come back on itself. */
  ghost predicate IsWalk(walk: seq<string>, waiting: set<string>, needs: Needs) {
    && walk != []
    && waiting <= needs.Keys
    && (forall i | 0 <= i < |walk| :: walk[i] in waiting)
    && (forall i, j | 0 <= i < j < |walk| :: walk[i] != walk[j])
    && (forall i | 0 <= i < |walk| - 1 :: walk[i + 1] in needs[walk[i]])
  }

  function IndexOf(walk: seq<string>, p: string): (i: nat)
    requires p in walk
    ensures i < |walk| && walk[i] == p
  {
    if walk[0] == p then 0 else 1 + IndexOf(walk[1..], p)
  }

  lemma {:induction false} DistinctFits(walk: seq<string>, within: set<string>)
    requires forall i | 0 <= i < |walk| :: walk[i] in within
    requires forall i, j | 0 <= i < j < |walk| :: walk[i] != walk[j]
    ensures |walk| <= |within|
  {
    if walk != [] {
      var rest := within - {walk[0]};
      assert within == rest + {walk[0]};
      DistinctFits(walk[1..], rest);
    }
  }

  /** The walk never takes more steps than there are waiting parameters. */
  lemma WalkGrows(walk: seq<string>, waiting: set<string>, needs: Needs)
    requires Stuck(waiting, needs) && IsWalk(walk, waiting, needs)
    requires Next(walk, waiting, needs) !in walk
    ensures IsWalk(walk + [Next(walk, waiting, needs)], waiting, needs)
    ensures |walk| < |waiting|
  {
    DistinctFits(walk + [Next(walk, waiting, needs)], waiting);
  }

  /** The order the rules are sized in, or why there is none. */
  function EvaluationOrder(rules: seq<Rule>): Result<seq<Rule>, PlanError> {
    match FirstUnreadable(rules)
    case Some(error) => Err(error)
    case None =>
      match FirstSelfReader(rules, Formulas(rules))
      case Some(error) => Err(error)
      case None =>
        StartsClosed(rules);
        Ordered(rules, {}, NeedsOf(rules))
  }

  lemma {:induction false} StartsClosed(rules: seq<Rule>)
    ensures Closed(rules, {}, NeedsOf(rules))
  {
  }

  // ------------------------------------------------------------- the loops, as written

  /** The loop over rounds. */
  method OrderLoop(rules: seq<Rule>, needs: Needs) returns (r: Result<seq<Rule>, PlanError>)
    requires Closed(rules, {}, needs)
    ensures r == Ordered(rules, {}, needs)
  {
    var ordered: seq<Rule> := [];
    var settled: set<string> := {};
    var remaining := rules;
    AfterNothing(ordered, Ordered(rules, {}, needs));
    while remaining != []
      invariant Closed(remaining, settled, needs)
      invariant Ordered(rules, {}, needs) == After(ordered, Ordered(remaining, settled, needs))
      decreases |remaining|
    {
      var ready := Ready(remaining, settled, needs);
      if ready == [] {
        NoRoundLeft(remaining, settled, needs);
        var ring := CycleWalk(remaining[0].parameter, Declared(remaining), needs);
        return Err(SizingError(remaining[0], Waits(ring)));
      }
      OneRound(ordered, remaining, settled, needs);
      ordered, settled, remaining :=
        ordered + ready, SettledNext(remaining, settled, needs), LeftNext(remaining, settled, needs);
    }
    AfterNothing(ordered, Ok([]));
    return Ok(ordered);
  }

  lemma AfterNothing(ordered: seq<Rule>, rest: Result<seq<Rule>, PlanError>)
    ensures After([], rest) == rest
    ensures After(ordered, Ok([])) == Ok(ordered)
  {
    if rest.Ok? {
      assert [] + rest.value == rest.value;
    }
    assert ordered + [] == ordered;
  }

  lemma NoRoundLeft(remaining: seq<Rule>, settled: set<string>, needs: Needs)
    requires Closed(remaining, settled, needs) && remaining != [] && Ready(remaining, settled, needs) == []
    ensures Stuck(Declared(remaining), needs)
    ensures Ordered(remaining, settled, needs) == Err(NamedRing(remaining, needs))
  {
    NotReadyMeansStuck(remaining, settled, needs);
  }

  lemma OneRound(ordered: seq<Rule>, remaining: seq<Rule>, settled: set<string>, needs: Needs)
    requires Closed(remaining, settled, needs) && remaining != [] && Ready(remaining, settled, needs) != []
    ensures var left, settled' := LeftNext(remaining, settled, needs), SettledNext(remaining, settled, needs);
            Closed(left, settled', needs) && |left| < |remaining|
            && After(ordered, Ordered(remaining, settled, needs)) ==
               After(ordered + Ready(remaining, settled, needs), Ordered(left, settled', needs))
  {
    StaysClosed(remaining, settled, needs);
    AfterTwice(ordered, Ready(remaining, settled, needs),
               Ordered(LeftNext(remaining, settled, needs), SettledNext(remaining, settled, needs), needs));
  }

  lemma AfterTwice(first: seq<Rule>, second: seq<Rule>, rest: Result<seq<Rule>, PlanError>)
    ensures After(first, After(second, rest)) == After(first + second, rest)
  {
    if rest.Ok? {
      assert first + (second + rest.value) == first + second + rest.value;
    }
  }

  /** The walk, growing one parameter at a time until it comes round. */
  method CycleWalk(start: string, waiting: set<string>, needs: Needs) returns (ring: seq<string>)
    requires Stuck(waiting, needs) && start in waiting
    ensures ring == Cycle(start, waiting, needs)
  {
    var walk := [start];
    while true
      invariant IsWalk(walk, waiting, needs)
      invariant Ring([start], waiting, needs) == Ring(walk, waiting, needs)
      decreases |waiting| - |walk|
    {
      var following := Next(walk, waiting, needs);
      if following in walk {
        return walk[IndexOf(walk, following)..] + [following];
      }
      WalkGrows(walk, waiting, needs);
      walk := walk + [following];
    }
  }
}
