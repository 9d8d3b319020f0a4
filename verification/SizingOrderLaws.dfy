// What the order promises: it exists exactly when nothing waits for itself, everything a
// rule reads comes before it, and ties keep the order of the file.
module SizingOrderLaws {
  import opened Wrappers
  import opened Expressions
  import opened SizingRules
  import opened SizingOrder

  // ------------------------------------------------------------------------------ rings

  /** A walk that ends where it began, each parameter needing the next. */
  ghost predicate IsRing(ring: seq<string>, needs: Needs) {
    && |ring| >= 2 && ring[0] == ring[|ring| - 1]
    && (forall i | 0 <= i < |ring| :: ring[i] in needs)
    && (forall i | 0 <= i < |ring| - 1 :: ring[i + 1] in needs[ring[i]])
  }

  /** No member twice, apart from the first coming round as the last. */
  ghost predicate IsSimple(ring: seq<string>) {
    forall i, j | 0 <= i < j < |ring| - 1 :: ring[i] != ring[j]
  }

  /** The ring that is named is one: it comes round, it has at least two members, each of
      them waits for the next, and all of them are still waiting. */
  lemma {:induction false} RingIsReal(walk: seq<string>, waiting: set<string>, needs: Needs)
    requires Stuck(waiting, needs) && IsWalk(walk, waiting, needs)
    ensures var ring := Ring(walk, waiting, needs);
            IsRing(ring, needs) && IsSimple(ring) && |ring| >= 3
            && forall p | p in ring :: p in waiting
    decreases |waiting| - |walk|
  {
    var following := Next(walk, waiting, needs);
    if following in walk {
      ClosingTheWalk(walk, waiting, needs);
    } else {
      WalkGrows(walk, waiting, needs);
      RingIsReal(walk + [following], waiting, needs);
    }
  }

  /** Every step goes to the first, in the order of text, of the waiting parameters that are
      needed. */
  ghost predicate Walked(walk: seq<string>, waiting: set<string>, needs: Needs) {
    && (forall i | 0 <= i < |walk| :: walk[i] in needs)
    && forall i | 0 <= i < |walk| - 1 :: Text.IsLeast(walk[i + 1], needs[walk[i]] * waiting)
  }

  /** The ring that is named is the one this walk comes to: the walk goes on until a step would
      lead back into it, and the ring is what lies between. */
  lemma {:induction false} RingIsWalkedTo(walk: seq<string>, waiting: set<string>, needs: Needs) returns (whole: seq<string>, k: nat)
    requires Stuck(waiting, needs) && IsWalk(walk, waiting, needs) && Walked(walk, waiting, needs)
    ensures walk <= whole && k < |whole| && Walked(whole + [whole[k]], waiting, needs)
    ensures forall i, j | 0 <= i < j < |whole| :: whole[i] != whole[j]
    ensures Ring(walk, waiting, needs) == whole[k..] + [whole[k]]
    decreases |waiting| - |walk|
  {
    var following := Next(walk, waiting, needs);
    assert following in waiting;
    if following in walk {
      whole, k := walk, IndexOf(walk, following);
    } else {
      WalkGrows(walk, waiting, needs);
      whole, k := RingIsWalkedTo(walk + [following], waiting, needs);
    }
  }

  lemma ClosingTheWalk(walk: seq<string>, waiting: set<string>, needs: Needs)
    requires Stuck(waiting, needs) && IsWalk(walk, waiting, needs)
    requires Next(walk, waiting, needs) in walk
    ensures var ring := walk[IndexOf(walk, Next(walk, waiting, needs))..] + [Next(walk, waiting, needs)];
            IsRing(ring, needs) && IsSimple(ring) && |ring| >= 3
            && forall p | p in ring :: p in waiting
  {
    var following := Next(walk, waiting, needs);
    var k := IndexOf(walk, following);
    var last := walk[|walk| - 1];
    assert last in waiting && following in needs[last] && following != last;
    var ring := walk[k..] + [following];
    forall i | 0 <= i < |ring| - 1 ensures ring[i + 1] in needs[ring[i]] {
      assert ring[i] == walk[k + i];
      if i < |ring| - 2 {
        assert ring[i + 1] == walk[k + i + 1];
      }
    }
  }

  // --------------------------------------------------------------- dependency chains

  ghost predicate WellFormed(needs: Needs) {
    forall p | p in needs :: needs[p] <= needs.Keys
  }

  /** No chain of needs starting at the parameter is longer than `k` steps. */
  ghost predicate Within(p: string, k: nat, needs: Needs)
    decreases k
  {
    p in needs ==> forall q | q in needs[p] :: k > 0 && Within(q, k - 1, needs)
  }

  ghost predicate IsChain(chain: seq<string>, needs: Needs) {
    && chain != []
    && (forall i | 0 <= i < |chain| :: chain[i] in needs)
    && forall i | 0 <= i < |chain| - 1 :: chain[i + 1] in needs[chain[i]]
  }

  lemma {:induction false} WithinBoundsChains(p: string, k: nat, needs: Needs, chain: seq<string>)
    requires Within(p, k, needs) && IsChain(chain, needs) && chain[0] == p
    ensures |chain| <= k + 1
    decreases k
  {
    if |chain| > 1 {
      assert chain[0 + 1] in needs[chain[0]];
      WithinBoundsChains(chain[1], k - 1, needs, chain[1..]);
    }
  }

  lemma {:induction false} LongChainOutside(p: string, k: nat, needs: Needs) returns (chain: seq<string>)
    requires WellFormed(needs) && p in needs && !Within(p, k, needs)
    ensures IsChain(chain, needs) && chain[0] == p && |chain| == k + 2
    decreases k
  {
    var q :| q in needs[p] && !(k > 0 && Within(q, k - 1, needs));
    if k == 0 {
      chain := [p, q];
    } else {
      var rest := LongChainOutside(q, k - 1, needs);
      chain := [p] + rest;
    }
  }

  /** `Within` says exactly how long the longest chain may be. */
  lemma WithinIsLongestChain(p: string, k: nat, needs: Needs)
    requires WellFormed(needs) && p in needs
    ensures Within(p, k, needs) <==> forall chain | IsChain(chain, needs) && chain[0] == p :: |chain| <= k + 1
  {
    if Within(p, k, needs) {
      forall chain | IsChain(chain, needs) && chain[0] == p ensures |chain| <= k + 1 {
        WithinBoundsChains(p, k, needs, chain);
      }
    } else {
      var chain := LongChainOutside(p, k, needs);
    }
  }

  lemma {:induction false} WithinGrows(p: string, k: nat, needs: Needs)
    requires Within(p, k, needs)
    ensures Within(p, k + 1, needs)
    decreases k
  {
    if p in needs {
      forall q | q in needs[p] ensures Within(q, k, needs) {
        WithinGrows(q, k - 1, needs);
      }
    }
  }

  lemma {:induction false} NoRingWithin(ring: seq<string>, k: nat, needs: Needs)
    requires IsRing(ring, needs)
    ensures !Within(ring[0], k, needs)
    decreases k
  {
    if Within(ring[0], k, needs) {
      assert ring[0 + 1] in needs[ring[0]];
      var turned := ring[1..] + [ring[1]];
      forall i | 0 <= i < |turned| - 1 ensures turned[i + 1] in needs[turned[i]] {
        if i == |turned| - 2 {
          assert turned[i] == ring[0] && turned[i + 1] == ring[1];
        } else {
          assert turned[i] == ring[i + 1] && turned[i + 1] == ring[i + 2];
        }
      }
      NoRingWithin(turned, k - 1, needs);
    }
  }

  // ---------------------------------------------------------------------- round by round

  /** The parameters whose longest chain is shorter than `k`. */
  ghost function SettledBy(k: nat, needs: Needs): set<string> {
    set p | p in needs && k > 0 && Within(p, k - 1, needs)
  }

  /** The longest chain from the parameter has exactly `k` steps. */
  ghost predicate HasHeight(p: string, k: nat, needs: Needs) {
    Within(p, k, needs) && (k > 0 ==> !Within(p, k - 1, needs))
  }

  /** The rules of one height, in file order. */
  ghost function OfHeight(rules: seq<Rule>, k: nat, needs: Needs): seq<Rule> {
    if rules == [] then []
    else
      var rest := OfHeight(rules[1..], k, needs);
      if HasHeight(rules[0].parameter, k, needs) then [rules[0]] + rest else rest
  }

  /** The rules by height from `k` up to `top`, each height in file order. */
  ghost function Layered(rules: seq<Rule>, k: nat, top: nat, needs: Needs): seq<Rule>
    decreases top - k
  {
    if k >= top then [] else OfHeight(rules, k, needs) + Layered(rules, k + 1, top, needs)
  }

  lemma SettledWithin(p: string, k: nat, needs: Needs)
    requires WellFormed(needs) && p in needs
    ensures needs[p] <= SettledBy(k, needs) <==> Within(p, k, needs)
  {
  }

  lemma {:induction false} ReadyIsOneHeight(rules: seq<Rule>, k: nat, needs: Needs)
    requires WellFormed(needs) && Declared(rules) <= needs.Keys
    ensures Ready(Waiting(rules, SettledBy(k, needs)), SettledBy(k, needs), needs) == OfHeight(rules, k, needs)
  {
    if rules != [] {
      assert Declared(rules[1..]) <= Declared(rules);
      assert Waiting(rules, SettledBy(k, needs))[..0] == [];
      ReadyIsOneHeight(rules[1..], k, needs);
      var p := rules[0].parameter;
      SettledWithin(p, k, needs);
      if p !in SettledBy(k, needs) {
        assert Waiting(rules, SettledBy(k, needs))[1..] == Waiting(rules[1..], SettledBy(k, needs));
      } else {
        assert k > 0 && Within(p, k - 1, needs);
      }
    }
  }

  lemma {:induction false} WaitingTwice(rules: seq<Rule>, s: set<string>, t: set<string>)
    requires s <= t
    ensures Waiting(Waiting(rules, s), t) == Waiting(rules, t)
  {
    if rules != [] {
      WaitingTwice(rules[1..], s, t);
      if rules[0].parameter !in s {
        assert Waiting(rules, s)[1..] == Waiting(rules[1..], s);
      }
    }
  }

  lemma {:induction false} OfHeightMembers(rules: seq<Rule>, k: nat, needs: Needs)
    ensures forall r :: r in OfHeight(rules, k, needs) <==> r in rules && HasHeight(r.parameter, k, needs)
  {
    if rules != [] {
      OfHeightMembers(rules[1..], k, needs);
    }
  }

  lemma SettledNextIsOneMore(rules: seq<Rule>, k: nat, needs: Needs)
    requires WellFormed(needs) && Declared(rules) == needs.Keys
    ensures var left := Waiting(rules, SettledBy(k, needs));
            Declared(left) <= needs.Keys
            && SettledNext(left, SettledBy(k, needs), needs) == SettledBy(k + 1, needs)
            && LeftNext(left, SettledBy(k, needs), needs) == Waiting(rules, SettledBy(k + 1, needs))
  {
    var s, t := SettledBy(k, needs), SettledBy(k + 1, needs);
    var ready := OfHeight(rules, k, needs);
    ReadyIsOneHeight(rules, k, needs);
    OfHeightMembers(rules, k, needs);
    forall p | p in s ensures p in t {
      WithinGrows(p, k - 1, needs);
    }
    forall p | p in t && p !in s ensures p in Declared(ready) {
      var r :| r in rules && r.parameter == p;
      assert HasHeight(p, k, needs);
      assert r in ready;
    }
    assert s + Declared(ready) == t;
    WaitingTwice(rules, s, t);
  }

  lemma {:induction false} NothingSettledAtFirst(rules: seq<Rule>)
    ensures Waiting(rules, {}) == rules
  {
    if rules != [] {
      NothingSettledAtFirst(rules[1..]);
    }
  }

  /** Each round places exactly the rules of one height, so the order is the rules by
      length of their longest dependency chain, ties in file order; and it runs until no
      rule is left. */
  lemma {:induction false} OrderedIsLayered(rules: seq<Rule>, k: nat, needs: Needs) returns (top: nat)
    requires WellFormed(needs) && Declared(rules) == needs.Keys
    requires var left := Waiting(rules, SettledBy(k, needs));
             Closed(left, SettledBy(k, needs), needs) && Ordered(left, SettledBy(k, needs), needs).Ok?
    ensures k <= top && Waiting(rules, SettledBy(top, needs)) == []
    ensures Ordered(Waiting(rules, SettledBy(k, needs)), SettledBy(k, needs), needs).value
            == Layered(rules, k, top, needs)
    decreases |Waiting(rules, SettledBy(k, needs))|
  {
    var left := Waiting(rules, SettledBy(k, needs));
    if left == [] {
      top := k;
    } else {
      if Ready(left, SettledBy(k, needs), needs) == [] {
        NoRoundLeft(left, SettledBy(k, needs), needs);
      }
      OneRound([], left, SettledBy(k, needs), needs);
      SettledNextIsOneMore(rules, k, needs);
      ReadyIsOneHeight(rules, k, needs);
      top := OrderedIsLayered(rules, k + 1, needs);
    }
  }

  // ------------------------------------------------------------------ what comes before

  /** Reading from the front, everything a rule needs has been settled before it. */
  ghost predicate Topological(order: seq<Rule>, settled: set<string>, needs: Needs) {
    order == [] ||
    (&& order[0].parameter in needs && needs[order[0].parameter] <= settled
     && Topological(order[1..], settled + {order[0].parameter}, needs))
  }

  lemma {:induction false} TopologicalGrows(order: seq<Rule>, s: set<string>, t: set<string>, needs: Needs)
    requires Topological(order, s, needs) && s <= t
    ensures Topological(order, t, needs)
  {
    if order != [] {
      TopologicalGrows(order[1..], s + {order[0].parameter}, t + {order[0].parameter}, needs);
    }
  }

  lemma {:induction false} ReadyFirst(ready: seq<Rule>, later: seq<Rule>, settled: set<string>, base: set<string>, needs: Needs)
    requires forall r | r in ready :: r.parameter in needs && needs[r.parameter] <= base
    requires base <= settled && Topological(later, settled + Declared(ready), needs)
    ensures Topological(ready + later, settled, needs)
  {
    if ready == [] {
      assert ready + later == later && settled + Declared(ready) == settled;
    } else {
      var p := ready[0].parameter;
      assert (ready + later)[1..] == ready[1..] + later;
      forall q | q in Declared(ready) ensures q in {p} + Declared(ready[1..]) {
        var r :| r in ready && r.parameter == q;
        assert r == ready[0] || r in ready[1..];
      }
      TopologicalGrows(later, settled + Declared(ready), settled + {p} + Declared(ready[1..]), needs);
      ReadyFirst(ready[1..], later, settled + {p}, base, needs);
    }
  }

  lemma {:induction false} OrderedIsTopological(remaining: seq<Rule>, settled: set<string>, needs: Needs)
    requires Closed(remaining, settled, needs) && Ordered(remaining, settled, needs).Ok?
    ensures Topological(Ordered(remaining, settled, needs).value, settled, needs)
    decreases |remaining|
  {
    if remaining != [] {
      var ready := Ready(remaining, settled, needs);
      if ready == [] {
        NoRoundLeft(remaining, settled, needs);
      }
      StaysClosed(remaining, settled, needs);
      var left, settled' := LeftNext(remaining, settled, needs), SettledNext(remaining, settled, needs);
      OrderedIsTopological(left, settled', needs);
      ReadyFirst(ready, Ordered(left, settled', needs).value, settled, settled, needs);
    }
  }

  /** `Topological`, read position by position. */
  lemma {:induction false} TopologicalMeansEarlier(order: seq<Rule>, settled: set<string>, needs: Needs, i: nat, q: string)
    requires Topological(order, settled, needs) && i < |order|
    requires order[i].parameter in needs && q in needs[order[i].parameter] && q !in settled
    ensures exists j :: 0 <= j < i && order[j].parameter == q
  {
    if i > 0 && order[0].parameter != q {
      TopologicalMeansEarlier(order[1..], settled + {order[0].parameter}, needs, i - 1, q);
      var j :| 0 <= j < i - 1 && order[1..][j].parameter == q;
      assert order[j + 1].parameter == q;
    } else if i > 0 {
      assert order[0].parameter == q;
    }
  }

  lemma {:induction false} ReadyAndWaitingPartition(rules: seq<Rule>, s: set<string>, t: set<string>, needs: Needs)
    requires Declared(rules) <= needs.Keys
    requires forall r | r in rules :: needs[r.parameter] <= s <==> r.parameter in t
    ensures multiset(Ready(rules, s, needs)) + multiset(Waiting(rules, t)) == multiset(rules)
  {
    if rules != [] {
      assert Declared(rules[1..]) <= Declared(rules);
      assert rules == [rules[0]] + rules[1..];
      ReadyAndWaitingPartition(rules[1..], s, t, needs);
    }
  }

  lemma {:induction false} OrderedIsPermutation(remaining: seq<Rule>, settled: set<string>, needs: Needs)
    requires Closed(remaining, settled, needs) && Ordered(remaining, settled, needs).Ok?
    ensures multiset(Ordered(remaining, settled, needs).value) == multiset(remaining)
    decreases |remaining|
  {
    if remaining != [] {
      var ready := Ready(remaining, settled, needs);
      if ready == [] {
        NoRoundLeft(remaining, settled, needs);
      }
      StaysClosed(remaining, settled, needs);
      OrderedIsPermutation(LeftNext(remaining, settled, needs), SettledNext(remaining, settled, needs), needs);
      forall r | r in remaining
        ensures needs[r.parameter] <= settled <==> r.parameter in SettledNext(remaining, settled, needs)
      {
        if r.parameter in Declared(ready) {
          var x :| x in ready && x.parameter == r.parameter;
        }
      }
      ReadyAndWaitingPartition(remaining, settled, SettledNext(remaining, settled, needs), needs);
    }
  }

  // -------------------------------------------------------------------- when it exists

  /** Every parameter a formula reads, itself included. */
  function ReadsOf(rules: seq<Rule>): (graph: Needs)
    ensures graph.Keys == Declared(rules)
  {
    var formulas := Formulas(rules);
    map p | p in Declared(rules) :: Names(formulas[p]) * Declared(rules)
  }

  lemma {:induction false} FirstUnreadableIsExact(rules: seq<Rule>)
    ensures FirstUnreadable(rules).None? <==> forall r | r in rules :: Check(r.expr).Accepted?
    ensures FirstUnreadable(rules).Some? ==>
              var e := FirstUnreadable(rules).value;
              e.SizingError? && e.rule in rules && Check(e.rule.expr).Refused? && e.detail.Unreadable?
  {
    if rules != [] {
      FirstUnreadableIsExact(rules[1..]);
    }
  }

  lemma {:induction false} FirstSelfReaderIsExact(rules: seq<Rule>, formulas: map<string, Node>)
    requires Declared(rules) <= formulas.Keys
    ensures FirstSelfReader(rules, formulas).None? <==>
            forall r | r in rules :: r.parameter !in Names(formulas[r.parameter])
    ensures FirstSelfReader(rules, formulas).Some? ==>
              var e := FirstSelfReader(rules, formulas).value;
              e.SizingError? && e.rule in rules && e.detail.ReadsItself?
              && e.rule.parameter in Names(formulas[e.rule.parameter])
  {
    if rules != [] {
      assert Declared(rules[1..]) <= Declared(rules);
      FirstSelfReaderIsExact(rules[1..], formulas);
    }
  }

  /** A refusal that names a ring names a real one. */
  ghost predicate NamesARing(e: PlanError, rules: seq<Rule>, needs: Needs) {
    && e.SizingError? && e.rule in rules && e.detail.Waits?
    && IsRing(e.detail.ring, needs) && IsSimple(e.detail.ring) && |e.detail.ring| >= 3
  }

  lemma NamedRingIsReal(remaining: seq<Rule>, needs: Needs)
    requires remaining != [] && Stuck(Declared(remaining), needs)
    ensures NamesARing(NamedRing(remaining, needs), remaining, needs)
  {
    RingIsReal([remaining[0].parameter], Declared(remaining), needs);
  }

  lemma {:induction false} StuckSomewhere(remaining: seq<Rule>, settled: set<string>, needs: Needs)
    requires Closed(remaining, settled, needs) && Ordered(remaining, settled, needs).Err?
    ensures NamesARing(Ordered(remaining, settled, needs).error, remaining, needs)
    decreases |remaining|
  {
    if Ready(remaining, settled, needs) == [] {
      NoRoundLeft(remaining, settled, needs);
      NamedRingIsReal(remaining, needs);
    } else {
      StaysClosed(remaining, settled, needs);
      var left, settled' := LeftNext(remaining, settled, needs), SettledNext(remaining, settled, needs);
      assert Ordered(remaining, settled, needs).error == Ordered(left, settled', needs).error;
      StuckSomewhere(left, settled', needs);
      assert forall r | r in left :: r in remaining;
    }
  }

  lemma OrderedMeansNoRing(rules: seq<Rule>, ring: seq<string>)
    requires Ordered(rules, {}, NeedsOf(rules)).Ok?
    ensures !IsRing(ring, NeedsOf(rules))
  {
    var needs := NeedsOf(rules);
    NothingSettledAtFirst(rules);
    assert SettledBy(0, needs) == {};
    var top := OrderedIsLayered(rules, 0, needs);
    if IsRing(ring, needs) {
      var r :| r in rules && r.parameter == ring[0];
      assert r !in Waiting(rules, SettledBy(top, needs));
      NoRingWithin(ring, top - 1, needs);
    }
  }

  lemma WithoutSelfReads(rules: seq<Rule>)
    requires FirstSelfReader(rules, Formulas(rules)).None?
    ensures NeedsOf(rules) == ReadsOf(rules)
  {
    var formulas := Formulas(rules);
    FirstSelfReaderIsExact(rules, formulas);
    forall p | p in Declared(rules) ensures NeedsOf(rules)[p] == ReadsOf(rules)[p] {
      var r :| r in rules && r.parameter == p;
      WithoutItself(Names(formulas[p]), Declared(rules), p);
    }
  }

  lemma WithoutItself(names: set<string>, declared: set<string>, p: string)
    requires p !in names
    ensures names * (declared - {p}) == names * declared
  {
  }

  /** The three ways it can go. */
  lemma EvaluationOrderCases(rules: seq<Rule>)
    ensures Closed(rules, {}, NeedsOf(rules))
    ensures FirstUnreadable(rules).None? && FirstSelfReader(rules, Formulas(rules)).None? ==>
              EvaluationOrder(rules) == Ordered(rules, {}, NeedsOf(rules)) && NeedsOf(rules) == ReadsOf(rules)
    ensures FirstUnreadable(rules).None? && FirstSelfReader(rules, Formulas(rules)).Some? ==>
              EvaluationOrder(rules) == Err(FirstSelfReader(rules, Formulas(rules)).value)
    ensures FirstUnreadable(rules).Some? ==> EvaluationOrder(rules) == Err(FirstUnreadable(rules).value)
  {
    StartsClosed(rules);
    if FirstUnreadable(rules).None? && FirstSelfReader(rules, Formulas(rules)).None? {
      WithoutSelfReads(rules);
    }
  }

  lemma SelfReadIsARing(p: string, graph: Needs)
    requires p in graph && p in graph[p]
    ensures IsRing([p, p], graph)
  {
    var ring := [p, p];
    assert forall i | 0 <= i < |ring| - 1 :: ring[i + 1] in graph[ring[i]];
  }

  /** The ring behind a refusal: the one named, or the parameter that reads itself. */
  function RingBehind(e: PlanError): seq<string>
    requires e.SizingError?
  {
    if e.detail.Waits? then e.detail.ring else [e.rule.parameter, e.rule.parameter]
  }

  lemma RefusalNamesARing(rules: seq<Rule>)
    requires EvaluationOrder(rules).Err? && FirstUnreadable(rules).None?
    ensures var e := EvaluationOrder(rules).error;
            e.SizingError? && e.rule in rules && IsRing(RingBehind(e), ReadsOf(rules))
            && (NamesARing(e, rules, ReadsOf(rules)) || e.detail.ReadsItself?)
  {
    EvaluationOrderCases(rules);
    if FirstSelfReader(rules, Formulas(rules)).None? {
      StuckSomewhere(rules, {}, NeedsOf(rules));
    } else {
      FirstSelfReaderIsExact(rules, Formulas(rules));
      var e := EvaluationOrder(rules).error;
      SelfReadIsARing(e.rule.parameter, ReadsOf(rules));
    }
  }

  ghost predicate HasRing(rules: seq<Rule>) {
    exists ring :: IsRing(ring, ReadsOf(rules))
  }

  /** There is an order exactly when every formula can be read and no parameter, by way of
      what it reads, waits for itself. */
  lemma OrderExistsExactly(rules: seq<Rule>)
    ensures EvaluationOrder(rules).Ok? <==>
            (forall r | r in rules :: Check(r.expr).Accepted?) && !HasRing(rules)
  {
    EvaluationOrderCases(rules);
    FirstUnreadableIsExact(rules);
    if FirstUnreadable(rules).None? {
      if EvaluationOrder(rules).Ok? {
        forall ring ensures !IsRing(ring, ReadsOf(rules)) {
          OrderedMeansNoRing(rules, ring);
        }
      } else {
        RefusalNamesARing(rules);
      }
    }
  }

  /** What an order is when there is one: the same rules, each after everything it reads,
      and by length of longest dependency chain with ties in file order. */
  lemma OrderIsRight(rules: seq<Rule>) returns (top: nat)
    requires EvaluationOrder(rules).Ok?
    ensures var order := EvaluationOrder(rules).value;
            && multiset(order) == multiset(rules)
            && Topological(order, {}, ReadsOf(rules))
            && order == Layered(rules, 0, top, ReadsOf(rules))
  {
    EvaluationOrderCases(rules);
    top := OrderedIsRight(rules, NeedsOf(rules));
  }

  lemma OrderedIsRight(rules: seq<Rule>, needs: Needs) returns (top: nat)
    requires WellFormed(needs) && Declared(rules) == needs.Keys
    requires Closed(rules, {}, needs) && Ordered(rules, {}, needs).Ok?
    ensures var order := Ordered(rules, {}, needs).value;
            multiset(order) == multiset(rules) && Topological(order, {}, needs)
            && order == Layered(rules, 0, top, needs)
  {
    OrderedIsPermutation(rules, {}, needs);
    OrderedIsTopological(rules, {}, needs);
    NothingSettledAtFirst(rules);
    assert SettledBy(0, needs) == {};
    top := OrderedIsLayered(rules, 0, needs);
  }
}
