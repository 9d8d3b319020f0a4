// Sizing every parameter: each rule on the scope extended with the final values of the
// rules before it, and the results in the order of the file.
module Sizing {
  import opened Wrappers
  import opened Values
  import opened Expressions
  import opened SizingRules
  import opened SizingOrder
  import Laws = SizingOrderLaws

  type Results = map<string, Sized>

  /** What sizes one rule on one scope: `Size`, wherever the program does it. */
  type Sizer = (Rule, Scope) -> Result<Sized, PlanError>

  /** The rules of an order one after another, each seeing what came before it. */
  function SizeAll(size: Sizer, order: seq<Rule>, working: Scope, sized: Results): Result<Results, PlanError> {
    if order == [] then Ok(sized)
    else
      var p := order[0].parameter;
      var result :- size(order[0], working);
      SizeAll(size, order[1..], working[p := result.value], sized[p := result])
  }

  function InFileOrder(rules: seq<Rule>, sized: Results): seq<Sized>
    requires Declared(rules) <= sized.Keys
  {
    seq(|rules|, i requires 0 <= i < |rules| => sized[rules[i].parameter])
  }

  function EvaluateRulesWith(size: Sizer, rules: seq<Rule>, scope: Scope): Result<seq<Sized>, PlanError> {
    var order :- EvaluationOrder(rules);
    match SizeAll(size, order, scope, map[])
    case Err(error) => Err(error)
    case Ok(sized) =>
      AllAreSized(size, rules, scope);
      Ok(InFileOrder(rules, sized))
  }

  function EvaluateRules(rules: seq<Rule>, scope: Scope): Result<seq<Sized>, PlanError> {
    EvaluateRulesWith(Size, rules, scope)
  }

  lemma DeclaredSplits(order: seq<Rule>)
    requires order != []
    ensures Declared(order) == {order[0].parameter} + Declared(order[1..])
  {
    assert order == [order[0]] + order[1..];
  }

  lemma {:induction false} SizeAllKeys(size: Sizer, order: seq<Rule>, working: Scope, sized: Results)
    ensures SizeAll(size, order, working, sized).Ok? ==>
              SizeAll(size, order, working, sized).value.Keys == sized.Keys + Declared(order)
  {
    if order != [] && size(order[0], working).Ok? {
      var p, result := order[0].parameter, size(order[0], working).value;
      SizeAllKeys(size, order[1..], working[p := result.value], sized[p := result]);
      DeclaredSplits(order);
    }
  }

  lemma DeclaredOfPermutation(a: seq<Rule>, b: seq<Rule>)
    requires multiset(a) == multiset(b)
    ensures Declared(a) == Declared(b)
    ensures forall r :: r in a <==> r in b
  {
    forall r ensures r in a <==> r in b {
      assert r in a <==> r in multiset(a);
    }
  }

  lemma AllAreSized(size: Sizer, rules: seq<Rule>, scope: Scope)
    requires EvaluationOrder(rules).Ok? && SizeAll(size, EvaluationOrder(rules).value, scope, map[]).Ok?
    ensures SizeAll(size, EvaluationOrder(rules).value, scope, map[]).value.Keys == Declared(rules)
  {
    var top := Laws.OrderIsRight(rules);
    DeclaredOfPermutation(EvaluationOrder(rules).value, rules);
    SizeAllKeys(size, EvaluationOrder(rules).value, scope, map[]);
  }

  /** The loop over the order: the scope and the results grow together. */
  method SizingLoop(size: Sizer, order: seq<Rule>, scope: Scope) returns (r: Result<Results, PlanError>)
    ensures r == SizeAll(size, order, scope, map[])
  {
    var working: Scope := scope;
    var sized: Results := map[];
    var i := 0;
    while i < |order|
      invariant 0 <= i <= |order|
      invariant SizeAll(size, order, scope, map[]) == SizeAll(size, order[i..], working, sized)
    {
      var rule := order[i];
      assert order[i..][0] == rule && order[i..][1..] == order[i + 1..];
      var result := size(rule, working);
      if result.IsFailure() {
        return result.PropagateFailure();
      }
      working := working[rule.parameter := result.value.value];
      sized := sized[rule.parameter := result.value];
      i := i + 1;
    }
    return Ok(sized);
  }

  /** The whole of it: the order, the loop over it, and the results back in file order. */
  method EvaluateAsWritten(rules: seq<Rule>, scope: Scope) returns (r: Result<seq<Sized>, PlanError>)
    ensures r == EvaluateRules(rules, scope)
  {
    var order := EvaluationOrder(rules);
    if order.IsFailure() {
      return order.PropagateFailure();
    }
    var sized := SizingLoop(Size, order.value, scope);
    if sized.IsFailure() {
      return sized.PropagateFailure();
    }
    AllAreSized(Size, rules, scope);
    return Ok(InFileOrder(rules, sized.value));
  }
}

module SizingLaws {
  import opened Wrappers
  import opened Values
  import opened Expressions
  import opened SizingRules
  import opened SizingOrder
  import opened Sizing
  import Counting
  import Laws = SizingOrderLaws
  import Sound = ExpressionSoundness
  import Monotone = ExpressionMonotone

  ghost predicate Distinct(rules: seq<Rule>) {
    forall i, j | 0 <= i < j < |rules| :: rules[i].parameter != rules[j].parameter
  }

  /** The one thing about sizing a rule that the order relies on: it reads no more of the
      scope than its formula names. */
  ghost predicate Local(size: Sizer) {
    forall r: Rule, s: Scope, t: Scope {:trigger size(r, s), size(r, t)} ::
      Sound.AgreeOn(Names(r.expr), s, t) ==> size(r, s) == size(r, t)
  }

  lemma SizingIsLocal()
    ensures Local(Size)
  {
    forall r: Rule, s: Scope, t: Scope | Sound.AgreeOn(Names(r.expr), s, t) ensures Size(r, s) == Size(r, t) {
      SizeIsLocal(r, s, t);
    }
  }

  ghost predicate Gives(size: Sizer, rule: Rule, scope: Scope, v: Value) {
    size(rule, scope).Ok? && size(rule, scope).value.value == v
  }

  /** An assignment of a value to every parameter under which each rule, sized on the scope
      extended with all of it, gives that parameter's value back. */
  ghost predicate Solution(size: Sizer, rules: seq<Rule>, scope: Scope, values: Scope) {
    && values.Keys == Declared(rules)
    && forall r | r in rules :: Gives(size, r, scope + values, values[r.parameter])
  }

  function ValuesOf(sized: Results): Scope {
    map p | p in sized :: sized[p].value
  }

  /** Everything an order's formulas read of the declared parameters is settled in time,
      and nothing is settled twice. */
  ghost predicate ReadsBefore(order: seq<Rule>, settled: set<string>, declared: set<string>) {
    order == [] ||
    (&& Names(order[0].expr) * declared <= settled
     && order[0].parameter !in settled
     && ReadsBefore(order[1..], settled + {order[0].parameter}, declared))
  }

  /** The working scope, part of the way: the base scope, with the settled parameters. */
  ghost predicate Extends(working: Scope, scope: Scope, settled: set<string>) {
    && working.Keys == scope.Keys + settled
    && forall n | n in scope && n !in settled :: working[n] == scope[n]
  }

  lemma WorkingAgrees(size: Sizer, rule: Rule, working: Scope, full: Scope, scope: Scope,
                      settled: set<string>, declared: set<string>)
    requires Local(size) && Extends(working, scope, settled) && Extends(full, scope, declared)
    requires settled <= declared && Names(rule.expr) * declared <= settled
    requires forall p | p in settled :: working[p] == full[p]
    ensures size(rule, working) == size(rule, full)
  {
    forall n | n in Names(rule.expr)
      ensures (n in working <==> n in full) && (n in working ==> working[n] == full[n])
    {
      if n in declared {
        assert n in settled;
      }
    }
  }

  lemma {:induction false} EarlierIsKept(size: Sizer, order: seq<Rule>, working: Scope, sized: Results,
                                         settled: set<string>, declared: set<string>)
    requires ReadsBefore(order, settled, declared) && SizeAll(size, order, working, sized).Ok?
    ensures forall p | p in settled && p in sized ::
              p in SizeAll(size, order, working, sized).value && SizeAll(size, order, working, sized).value[p] == sized[p]
  {
    if order != [] {
      var p, result := order[0].parameter, size(order[0], working).value;
      EarlierIsKept(size, order[1..], working[p := result.value], sized[p := result], settled + {p}, declared);
    }
  }

  /** The loop, part of the way: what has been sized is in the results and in the scope. */
  ghost predicate Underway(working: Scope, sized: Results, scope: Scope, settled: set<string>) {
    Extends(working, scope, settled) && settled == sized.Keys && forall p | p in settled :: working[p] == sized[p].value
  }

  lemma StillUnderway(working: Scope, sized: Results, scope: Scope, settled: set<string>, p: string, result: Sized)
    requires Underway(working, sized, scope, settled)
    ensures Underway(working[p := result.value], sized[p := result], scope, settled + {p})
  {
  }

  lemma FullScope(working: Scope, sized: Results, scope: Scope, settled: set<string>, final: Results)
    requires Underway(working, sized, scope, settled)
    requires forall p | p in settled :: p in final && final[p] == sized[p]
    ensures Extends(scope + ValuesOf(final), scope, final.Keys)
    ensures forall p | p in settled :: working[p] == (scope + ValuesOf(final))[p]
  {
  }

  /** What the loop computes solves every rule it has run: sized again on the scope
      extended with all final values, each gives its own result back. */
  lemma {:induction false} LoopSolves(size: Sizer, order: seq<Rule>, working: Scope, sized: Results, scope: Scope,
                                      settled: set<string>, declared: set<string>, final: Results)
    requires Local(size) && ReadsBefore(order, settled, declared) && Underway(working, sized, scope, settled)
    requires declared == settled + Declared(order) && final.Keys == declared
    requires SizeAll(size, order, working, sized) == Ok(final)
    ensures forall r | r in order :: size(r, scope + ValuesOf(final)) == Ok(final[r.parameter])
  {
    if order != [] {
      var p, result := order[0].parameter, size(order[0], working).value;
      var working', sized', settled' := working[p := result.value], sized[p := result], settled + {p};
      StillUnderway(working, sized, scope, settled, p, result);
      DeclaredSplits(order);
      LoopSolves(size, order[1..], working', sized', scope, settled', declared, final);
      FirstSolved(size, order, working, sized, scope, settled, declared, final);
      assert forall r | r in order :: r == order[0] || r in order[1..];
    }
  }

  lemma FirstSolved(size: Sizer, order: seq<Rule>, working: Scope, sized: Results, scope: Scope,
                    settled: set<string>, declared: set<string>, final: Results)
    requires Local(size) && ReadsBefore(order, settled, declared) && Underway(working, sized, scope, settled)
    requires declared == settled + Declared(order) && final.Keys == declared
    requires order != [] && SizeAll(size, order, working, sized) == Ok(final)
    ensures size(order[0], scope + ValuesOf(final)) == Ok(final[order[0].parameter])
  {
    var p, result := order[0].parameter, size(order[0], working).value;
    EarlierIsKept(size, order, working, sized, settled, declared);
    EarlierIsKept(size, order[1..], working[p := result.value], sized[p := result], settled + {p}, declared);
    FullScope(working, sized, scope, settled, final);
    WorkingAgrees(size, order[0], working, scope + ValuesOf(final), scope, settled, declared);
  }

  lemma AllFound(working: Scope, sized: Results, scope: Scope, settled: set<string>, values: Scope)
    requires Underway(working, sized, scope, settled) && values.Keys == settled
    requires forall p | p in settled :: working[p] == values[p]
    ensures ValuesOf(sized) == values
  {
  }

  /** The other way round: where an assignment solves the rules, the loop finds it. */
  lemma {:induction false} LoopFinds(size: Sizer, order: seq<Rule>, working: Scope, sized: Results, scope: Scope,
                                     settled: set<string>, declared: set<string>, values: Scope)
    requires Local(size) && ReadsBefore(order, settled, declared) && Underway(working, sized, scope, settled)
    requires declared == settled + Declared(order) && values.Keys == declared
    requires forall p | p in settled :: working[p] == values[p]
    requires forall r | r in order :: Gives(size, r, scope + values, values[r.parameter])
    ensures SizeAll(size, order, working, sized).Ok?
    ensures ValuesOf(SizeAll(size, order, working, sized).value) == values
  {
    if order == [] {
      AllFound(working, sized, scope, settled, values);
    } else {
      var p := order[0].parameter;
      assert order[0] in order;
      WorkingAgrees(size, order[0], working, scope + values, scope, settled, declared);
      var result := size(order[0], working).value;
      DeclaredSplits(order);
      StillUnderway(working, sized, scope, settled, p, result);
      LoopFinds(size, order[1..], working[p := result.value], sized[p := result], scope, settled + {p}, declared, values);
    }
  }

  // --------------------------------------------------------- the order gives what it needs

  lemma {:induction false} FormulaAt(rules: seq<Rule>, i: nat)
    requires Distinct(rules) && i < |rules|
    ensures rules[i].parameter in Formulas(rules) && Formulas(rules)[rules[i].parameter] == rules[i].expr
  {
    var n := |rules| - 1;
    if i < n {
      FormulaAt(rules[..n], i);
      assert rules[..n][i] == rules[i] && rules[i].parameter != rules[n].parameter;
    }
  }

  lemma {:induction false} TopologicalReadsBefore(order: seq<Rule>, settled: set<string>, declared: set<string>, graph: Needs)
    requires Laws.Topological(order, settled, graph) && Distinct(order)
    requires forall r | r in order :: r.parameter !in settled
    requires forall r | r in order :: r.parameter in graph && graph[r.parameter] == Names(r.expr) * declared
    ensures ReadsBefore(order, settled, declared)
  {
    if order != [] {
      assert order[0] in order;
      TopologicalReadsBefore(order[1..], settled + {order[0].parameter}, declared, graph);
    }
  }

  function ParametersOf(rules: seq<Rule>): seq<string> {
    seq(|rules|, i requires 0 <= i < |rules| => rules[i].parameter)
  }

  lemma DistinctParameters(rules: seq<Rule>)
    ensures Distinct(rules) <==> Counting.Distinct(ParametersOf(rules))
    ensures Counting.Elements(ParametersOf(rules)) == Declared(rules)
    ensures Distinct(rules) <==> |Declared(rules)| == |rules|
  {
    var names := ParametersOf(rules);
    assert forall i | 0 <= i < |rules| :: names[i] == rules[i].parameter;
    forall p | p in Declared(rules) ensures p in names {
      var r :| r in rules && r.parameter == p;
      var i :| 0 <= i < |rules| && rules[i] == r;
      assert names[i] == p;
    }
    assert Counting.Elements(names) == Declared(rules);
    Counting.DistinctByCounting(names);
  }

  lemma DistinctOfPermutation(a: seq<Rule>, b: seq<Rule>)
    requires multiset(a) == multiset(b) && Distinct(a)
    ensures Distinct(b) && Declared(a) == Declared(b) && |a| == |b|
  {
    DeclaredOfPermutation(a, b);
    assert |multiset(a)| == |a| && |multiset(b)| == |b|;
    DistinctParameters(a);
    DistinctParameters(b);
  }

  /** The order found is one the loop can follow: every parameter a formula reads has been
      settled when the formula is evaluated. */
  lemma OrderReadsBefore(rules: seq<Rule>)
    requires Distinct(rules) && EvaluationOrder(rules).Ok?
    ensures var order := EvaluationOrder(rules).value;
            multiset(order) == multiset(rules) && Declared(order) == Declared(rules)
            && ReadsBefore(order, {}, Declared(rules))
  {
    var top := Laws.OrderIsRight(rules);
    var order := EvaluationOrder(rules).value;
    DistinctOfPermutation(rules, order);
    DeclaredOfPermutation(order, rules);
    GraphOfDistinct(rules);
    TopologicalReadsBefore(order, {}, Declared(rules), Laws.ReadsOf(rules));
  }

  lemma GraphOfDistinct(rules: seq<Rule>)
    requires Distinct(rules)
    ensures forall r | r in rules ::
              r.parameter in Laws.ReadsOf(rules) && Laws.ReadsOf(rules)[r.parameter] == Names(r.expr) * Declared(rules)
  {
    forall r | r in rules
      ensures r.parameter in Laws.ReadsOf(rules) && Laws.ReadsOf(rules)[r.parameter] == Names(r.expr) * Declared(rules)
    {
      var i :| 0 <= i < |rules| && rules[i] == r;
      FormulaAt(rules, i);
    }
  }

  // ------------------------------------------------------------------------ the theorems

  lemma OrderSolves(size: Sizer, order: seq<Rule>, scope: Scope)
    requires Local(size) && ReadsBefore(order, {}, Declared(order))
    ensures SizeAll(size, order, scope, map[]).Ok? ==>
              var final := SizeAll(size, order, scope, map[]).value;
              final.Keys == Declared(order)
              && Solution(size, order, scope, ValuesOf(final))
              && forall r | r in order :: size(r, scope + ValuesOf(final)) == Ok(final[r.parameter])
  {
    SizeAllKeys(size, order, scope, map[]);
    if SizeAll(size, order, scope, map[]).Ok? {
      var final := SizeAll(size, order, scope, map[]).value;
      LoopSolves(size, order, scope, map[], scope, {}, Declared(order), final);
    }
  }

  lemma OrderFinds(size: Sizer, order: seq<Rule>, scope: Scope, values: Scope)
    requires Local(size) && ReadsBefore(order, {}, Declared(order)) && Solution(size, order, scope, values)
    ensures SizeAll(size, order, scope, map[]).Ok?
    ensures ValuesOf(SizeAll(size, order, scope, map[]).value) == values
  {
    LoopFinds(size, order, scope, map[], scope, {}, Declared(order), values);
  }

  lemma SolutionOfPermutation(size: Sizer, a: seq<Rule>, b: seq<Rule>, scope: Scope, values: Scope)
    requires multiset(a) == multiset(b)
    ensures Solution(size, a, scope, values) <==> Solution(size, b, scope, values)
  {
    DeclaredOfPermutation(a, b);
  }

  /** The results of a successful run are, in file order, what every rule gives on the
      scope extended with all final values at once. */
  ghost predicate SelfConsistent(size: Sizer, rules: seq<Rule>, scope: Scope, results: seq<Sized>, values: Scope) {
    && |results| == |rules| && Solution(size, rules, scope, values)
    && forall i | 0 <= i < |rules| :: size(rules[i], scope + values) == Ok(results[i])
  }

  lemma RunIsSelfConsistent(size: Sizer, rules: seq<Rule>, scope: Scope) returns (values: Scope)
    requires Local(size) && Distinct(rules) && EvaluateRulesWith(size, rules, scope).Ok?
    ensures SelfConsistent(size, rules, scope, EvaluateRulesWith(size, rules, scope).value, values)
  {
    OrderReadsBefore(rules);
    var order := EvaluationOrder(rules).value;
    OrderSolves(size, order, scope);
    var final := SizeAll(size, order, scope, map[]).value;
    values := ValuesOf(final);
    SolutionOfPermutation(size, order, rules, scope, values);
    DeclaredOfPermutation(order, rules);
    var results := InFileOrder(rules, final);
    assert EvaluateRulesWith(size, rules, scope) == Ok(results);
    forall i | 0 <= i < |rules| ensures size(rules[i], scope + values) == Ok(results[i]) {
      assert rules[i] in order;
    }
  }

  lemma SolvableRunSucceeds(size: Sizer, rules: seq<Rule>, scope: Scope, values: Scope)
    requires Local(size) && Distinct(rules) && EvaluationOrder(rules).Ok? && Solution(size, rules, scope, values)
    ensures EvaluateRulesWith(size, rules, scope).Ok?
    ensures SelfConsistent(size, rules, scope, EvaluateRulesWith(size, rules, scope).value, values)
  {
    OrderReadsBefore(rules);
    var order := EvaluationOrder(rules).value;
    SolutionOfPermutation(size, order, rules, scope, values);
    OrderFinds(size, order, scope, values);
    var found := RunIsSelfConsistent(size, rules, scope);
    SolutionOfPermutation(size, order, rules, scope, found);
    OrderFinds(size, order, scope, found);
  }

  /** Sizing succeeds exactly when there is an order and an assignment that solves every
      rule at once; then that assignment is the only one, and the results are what each
      rule gives under it. */
  lemma EvaluationIsTheSolution(rules: seq<Rule>, scope: Scope)
    requires Distinct(rules)
    ensures EvaluateRules(rules, scope).Ok? <==>
            EvaluationOrder(rules).Ok? && exists values :: Solution(Size, rules, scope, values)
    ensures forall values | EvaluationOrder(rules).Ok? && Solution(Size, rules, scope, values) ::
              EvaluateRules(rules, scope).Ok? && SelfConsistent(Size, rules, scope, EvaluateRules(rules, scope).value, values)
    ensures forall v, w | EvaluationOrder(rules).Ok? && Solution(Size, rules, scope, v) && Solution(Size, rules, scope, w) ::
              v == w
  {
    SizingIsLocal();
    if EvaluateRules(rules, scope).Ok? {
      var values := RunIsSelfConsistent(Size, rules, scope);
    }
    forall values | EvaluationOrder(rules).Ok? && Solution(Size, rules, scope, values)
      ensures EvaluateRules(rules, scope).Ok? && SelfConsistent(Size, rules, scope, EvaluateRules(rules, scope).value, values)
    {
      SolvableRunSucceeds(Size, rules, scope, values);
    }
    forall v, w | EvaluationOrder(rules).Ok? && Solution(Size, rules, scope, v) && Solution(Size, rules, scope, w)
      ensures v == w
    {
      SolutionsAgree(Size, rules, scope, v, w);
    }
  }

  lemma SolutionsAgree(size: Sizer, rules: seq<Rule>, scope: Scope, v: Scope, w: Scope)
    requires Local(size) && Distinct(rules) && EvaluationOrder(rules).Ok?
    requires Solution(size, rules, scope, v) && Solution(size, rules, scope, w)
    ensures v == w
  {
    OrderReadsBefore(rules);
    var order := EvaluationOrder(rules).value;
    SolutionOfPermutation(size, order, rules, scope, v);
    SolutionOfPermutation(size, order, rules, scope, w);
    OrderFinds(size, order, scope, v);
    OrderFinds(size, order, scope, w);
  }

  // -------------------------------------------------------------------------- reordering

  lemma ReadsOfPermutation(a: seq<Rule>, b: seq<Rule>)
    requires Distinct(a) && multiset(a) == multiset(b)
    ensures Laws.ReadsOf(a) == Laws.ReadsOf(b)
  {
    DistinctOfPermutation(a, b);
    DeclaredOfPermutation(a, b);
    GraphOfDistinct(a);
    GraphOfDistinct(b);
    forall p | p in Declared(a) ensures Laws.ReadsOf(a)[p] == Laws.ReadsOf(b)[p] {
      var r :| r in a && r.parameter == p;
      assert r in b;
    }
  }

  /** Writing the rules in another order changes neither whether there is a plan nor the
      result of any rule. */
  lemma ReorderingPermutesResults(a: seq<Rule>, b: seq<Rule>, scope: Scope)
    requires Distinct(a) && multiset(a) == multiset(b)
    ensures EvaluateRules(a, scope).Ok? <==> EvaluateRules(b, scope).Ok?
    ensures EvaluateRules(a, scope).Ok? ==>
              |EvaluateRules(a, scope).value| == |a| && |EvaluateRules(b, scope).value| == |b|
              && forall i, j | 0 <= i < |a| && 0 <= j < |b| && a[i] == b[j] ::
                   EvaluateRules(a, scope).value[i] == EvaluateRules(b, scope).value[j]
  {
    SizingIsLocal();
    DistinctOfPermutation(a, b);
    DeclaredOfPermutation(a, b);
    ReadsOfPermutation(a, b);
    Laws.OrderExistsExactly(a);
    Laws.OrderExistsExactly(b);
    if EvaluateRules(a, scope).Ok? {
      SameResults(a, b, scope);
    }
    if EvaluateRules(b, scope).Ok? {
      SameResults(b, a, scope);
    }
  }

  lemma SameResults(a: seq<Rule>, b: seq<Rule>, scope: Scope)
    requires Local(Size) && Distinct(a) && Distinct(b) && multiset(a) == multiset(b)
    requires EvaluateRules(a, scope).Ok? && EvaluationOrder(b).Ok?
    ensures EvaluateRules(b, scope).Ok?
    ensures var x, y := EvaluateRules(a, scope).value, EvaluateRules(b, scope).value;
            |x| == |a| && |y| == |b|
            && forall i, j | 0 <= i < |a| && 0 <= j < |b| && a[i] == b[j] :: x[i] == y[j]
  {
    var values := RunIsSelfConsistent(Size, a, scope);
    SolutionOfPermutation(Size, a, b, scope, values);
    SolvableRunSucceeds(Size, b, scope, values);
  }

  // ------------------------------------------------------------------------- more facts

  /** The scope with every parameter bound to something that is not a group: which value
      it will be does not matter to what the comparisons may see. */
  function WithParameters(s: Scope, params: set<string>): Scope {
    s + map p | p in params :: Nothing
  }

  ghost predicate Scalar(v: Value) {
    v.Num? || v.Text? || v.Nothing?
  }

  /** Of these names the two scopes define the same ones, and by the same value wherever it
      is not a scalar in both. */
  ghost predicate SameGroups(names: set<string>, s: Scope, t: Scope) {
    forall n | n in names :: (n in s <==> n in t) && (n in s ==> s[n] == t[n] || (Scalar(s[n]) && Scalar(t[n])))
  }

  lemma {:induction false} LookupOfSameGroups(e: Node, s: Scope, t: Scope)
    requires SameGroups(Names(e), s, t)
    ensures Monotone.Lookup(e, s) == Monotone.Lookup(e, t)
            || (Monotone.Lookup(e, s).At? && Monotone.Lookup(e, t).At?
                && Scalar(Monotone.Lookup(e, s).value) && Scalar(Monotone.Lookup(e, t).value))
  {
    if e.Attribute? {
      LookupOfSameGroups(e.base, s, t);
    }
  }

  lemma {:induction false} SolidOfSameGroups(e: Node, s: Scope, t: Scope)
    requires SameGroups(Names(e), s, t)
    ensures Monotone.Solid(e, s) <==> Monotone.Solid(e, t)
    decreases e, 1
  {
    match e
    case Name(_) => LookupOfSameGroups(e, s, t);
    case Attribute(base, _) => LookupOfSameGroups(e, s, t); SolidOfSameGroups(base, s, t);
    case Choose(_, body, orelse) => SolidOfSameGroups(body, s, t); SolidOfSameGroups(orelse, s, t);
    case Elements(elts) => AllSolidOfSameGroups(elts, s, t);
    case _ =>
  }

  lemma {:induction false} AllSolidOfSameGroups(es: seq<Node>, s: Scope, t: Scope)
    requires SameGroups(NamesOfAll(es), s, t)
    ensures Monotone.AllSolid(es, s) <==> Monotone.AllSolid(es, t)
    decreases es, 0
  {
    if es != [] {
      SolidOfSameGroups(es[0], s, t);
      AllSolidOfSameGroups(es[1..], s, t);
    }
  }

  lemma {:induction false} ComparesOfSameGroups(e: Node, s: Scope, t: Scope)
    requires SameGroups(Names(e), s, t)
    ensures Monotone.ComparesSolids(e, s) <==> Monotone.ComparesSolids(e, t)
    decreases e, 1
  {
    match e
    case Attribute(base, _) => ComparesOfSameGroups(base, s, t);
    case Binary(_, l, r) => ComparesOfSameGroups(l, s, t); ComparesOfSameGroups(r, s, t);
    case Unary(_, x) => ComparesOfSameGroups(x, s, t);
    case Boolean(_, values) => AllCompareOfSameGroups(values, s, t);
    case Compare(first, chain) =>
      ComparesOfSameGroups(first, s, t);
      SolidOfSameGroups(first, s, t);
      ChainOfSameGroups(chain, s, t);
    case Choose(test, body, orelse) =>
      ComparesOfSameGroups(test, s, t);
      ComparesOfSameGroups(body, s, t);
      ComparesOfSameGroups(orelse, s, t);
    case Elements(elts) => AllCompareOfSameGroups(elts, s, t);
    case _ =>
  }

  lemma {:induction false} AllCompareOfSameGroups(es: seq<Node>, s: Scope, t: Scope)
    requires SameGroups(NamesOfAll(es), s, t)
    ensures Monotone.AllCompareSolids(es, s) <==> Monotone.AllCompareSolids(es, t)
    decreases es, 0
  {
    if es != [] {
      ComparesOfSameGroups(es[0], s, t);
      AllCompareOfSameGroups(es[1..], s, t);
    }
  }

  lemma {:induction false} ChainOfSameGroups(chain: Chain, s: Scope, t: Scope)
    requires SameGroups(NamesOfChain(chain), s, t)
    ensures Monotone.ChainComparesSolids(chain, s) <==> Monotone.ChainComparesSolids(chain, t)
    decreases chain, 0
  {
    if chain.Then? {
      ComparesOfSameGroups(chain.operand, s, t);
      SolidOfSameGroups(chain.operand, s, t);
      ChainOfSameGroups(chain.rest, s, t);
    }
  }

  lemma SizedValuesAreScalar(rule: Rule, s: Scope)
    ensures Size(rule, s).Ok? ==> Scalar(Size(rule, s).value.value)
  {
  }

  /** Every comparison that the rules reach, one after another in this order, is settled. */
  predicate SteadyAlong(order: seq<Rule>, working: Scope) {
    order == []
    || (&& Monotone.SteadyIfRead(order[0].expr, working)
        && (Size(order[0], working).Ok? ==>
              SteadyAlong(order[1..], working[order[0].parameter := Size(order[0], working).value.value])))
  }

  predicate SteadyRules(rules: seq<Rule>, s: Scope) {
    EvaluationOrder(rules).Ok? ==> SteadyAlong(EvaluationOrder(rules).value, s)
  }

  /** Decided before anything is sized: no formula compares a group with a hole in it. */
  lemma SolidRulesAreSteady(rules: seq<Rule>, s: Scope)
    requires Distinct(rules)
    requires forall r | r in rules :: Monotone.ComparesSolids(r.expr, WithParameters(s, Declared(rules)))
    ensures SteadyRules(rules, s)
  {
    if EvaluationOrder(rules).Ok? {
      OrderReadsBefore(rules);
      var order := EvaluationOrder(rules).value;
      DeclaredOfPermutation(order, rules);
      SolidOrderIsSteady(order, s, s, {}, Declared(rules));
    }
  }

  /** What has been sized so far is scalar, and the rest of the scope is as it was. */
  ghost predicate ScalarSoFar(working: Scope, s: Scope, settled: set<string>) {
    && working.Keys == s.Keys + settled
    && (forall n | n in s && n !in settled :: working[n] == s[n])
    && forall n | n in settled :: Scalar(working[n])
  }

  lemma {:induction false} SolidOrderIsSteady(order: seq<Rule>, working: Scope, s: Scope, settled: set<string>, declared: set<string>)
    requires ReadsBefore(order, settled, declared) && ScalarSoFar(working, s, settled)
    requires settled <= declared && Declared(order) <= declared
    requires forall r | r in order :: Monotone.ComparesSolids(r.expr, WithParameters(s, declared))
    ensures SteadyAlong(order, working)
  {
    if order != [] {
      var r := order[0];
      assert r in order;
      ReadsOnlySettled(r, working, s, settled, declared);
      ComparesOfSameGroups(r.expr, WithParameters(s, declared), working);
      Monotone.SolidsAreSteadyIfRead(r.expr, working);
      if Size(r, working).Ok? {
        var p, v := r.parameter, Size(r, working).value.value;
        SizedValuesAreScalar(r, working);
        DeclaredSplits(order);
        OneMoreScalar(working, s, settled, p, v);
        SolidOrderIsSteady(order[1..], working[p := v], s, settled + {p}, declared);
      }
    }
  }

  lemma OneMoreScalar(working: Scope, s: Scope, settled: set<string>, p: string, v: Value)
    requires ScalarSoFar(working, s, settled) && Scalar(v)
    ensures ScalarSoFar(working[p := v], s, settled + {p})
  {
  }

  lemma ReadsOnlySettled(r: Rule, working: Scope, s: Scope, settled: set<string>, declared: set<string>)
    requires Names(r.expr) * declared <= settled <= declared && ScalarSoFar(working, s, settled)
    ensures SameGroups(Names(r.expr), WithParameters(s, declared), working)
  {
    forall n | n in Names(r.expr)
      ensures (n in WithParameters(s, declared) <==> n in working)
      ensures n in working ==>
                WithParameters(s, declared)[n] == working[n] || (Scalar(WithParameters(s, declared)[n]) && Scalar(working[n]))
    {
      if n in declared {
        assert n in settled;
      }
    }
  }

  /** What a rule comes to, where it may be relied on, is the same with more facts, unless a
      fact was missing. */
  ghost predicate Persistent(size: Sizer, steady: (Rule, Scope) -> bool) {
    forall r: Rule, s: Scope, t: Scope {:trigger size(r, s), size(r, t)} ::
      ScopeRefines(s, t) && steady(r, s) ==> size(r, s) == size(r, t) || (size(r, s).Err? && size(r, s).error.Unsized?)
  }

  predicate HoldsAlong(size: Sizer, steady: (Rule, Scope) -> bool, order: seq<Rule>, working: Scope) {
    order == []
    || (&& steady(order[0], working)
        && (size(order[0], working).Ok? ==>
              HoldsAlong(size, steady, order[1..], working[order[0].parameter := size(order[0], working).value.value])))
  }

  lemma SizingPersists()
    ensures Persistent(Size, (r: Rule, s: Scope) => Monotone.SteadyIfRead(r.expr, s))
  {
    forall r: Rule, s: Scope, t: Scope | ScopeRefines(s, t) && Monotone.SteadyIfRead(r.expr, s)
      ensures Size(r, s) == Size(r, t) || (Size(r, s).Err? && Size(r, s).error.Unsized?)
    {
      SizeIsMonotone(r, s, t);
    }
  }

  lemma {:induction false} SteadyHoldsAlong(order: seq<Rule>, working: Scope)
    requires SteadyAlong(order, working)
    ensures HoldsAlong(Size, (r: Rule, s: Scope) => Monotone.SteadyIfRead(r.expr, s), order, working)
  {
    if order != [] && Size(order[0], working).Ok? {
      SteadyHoldsAlong(order[1..], working[order[0].parameter := Size(order[0], working).value.value]);
    }
  }

  lemma {:induction false} LoopPersists(size: Sizer, steady: (Rule, Scope) -> bool, order: seq<Rule>, s: Scope, t: Scope, sized: Results)
    requires Persistent(size, steady) && HoldsAlong(size, steady, order, s) && ScopeRefines(s, t)
    ensures SizeAll(size, order, s, sized) == SizeAll(size, order, t, sized)
            || (SizeAll(size, order, s, sized).Err? && SizeAll(size, order, s, sized).error.Unsized?)
  {
    if order != [] {
      var before, after := size(order[0], s), size(order[0], t);
      if before.Ok? {
        assert before == after;
        var p, v := order[0].parameter, before.value.value;
        OneMoreRefines(s, t, p, v);
        LoopPersists(size, steady, order[1..], s[p := v], t[p := v], sized[p := before.value]);
      }
    }
  }

  lemma OneMoreRefines(s: Scope, t: Scope, p: string, v: Value)
    requires ScopeRefines(s, t)
    ensures ScopeRefines(s[p := v], t[p := v])
  {
    RefinesReflexive(v);
  }

  /** Collecting more facts changes nothing about a sizing that did not lack one: not one
      result of a sizing that succeeded, and not the error of one that was refused, wherever
      the comparisons its formulas reached were settled. */
  lemma MoreFactsKeepTheSizes(rules: seq<Rule>, s: Scope, t: Scope)
    requires ScopeRefines(s, t) && SteadyRules(rules, s)
    ensures EvaluateRules(rules, t) == EvaluateRules(rules, s)
            || (EvaluateRules(rules, s).Err? && EvaluateRules(rules, s).error.Unsized?)
  {
    if EvaluationOrder(rules).Ok? {
      var order := EvaluationOrder(rules).value;
      SizingPersists();
      SteadyHoldsAlong(order, s);
      LoopPersists(Size, (r: Rule, u: Scope) => Monotone.SteadyIfRead(r.expr, u), order, s, t, map[]);
    }
  }
}
