// Collecting one more fact never changes an answer an expression already gave.
module ExpressionMonotone {
  import opened Values
  import opened Expressions
  import opened ExpressionSettled
  import Sound = ExpressionSoundness

  // ------------------------------------------------- where a comparison sees a hole

  datatype Found = At(value: Value) | Absent | NotAPath

  /** What a dotted path reaches, without evaluating anything. */
  function Lookup(e: Node, s: Scope): Found {
    match e
    case Name(id) => if id in s then At(s[id]) else Absent
    case Attribute(base, attr) =>
      var container := Lookup(base, s);
      if container.NotAPath? then NotAPath
      else if container.At? && container.value.Group? && attr in container.value.members then
        At(container.value.members[attr])
      else Absent
    case _ => NotAPath
  }

  predicate SolidPath(found: Found) {
    found.At? ==> found.value.Unreported? || Reported(found.value)
  }

  /** The operand cannot come to a group with an unreported leaf in it. Decided from the
      tree and the paths in it, before anything is evaluated. */
  predicate Solid(e: Node, s: Scope)
    decreases e, 1
  {
    match e
    case Constant(v) => LiteralHeld(v)
    case Name(_) => SolidPath(Lookup(e, s))
    case Attribute(base, _) =>
      if Lookup(e, s).NotAPath? then Solid(base, s) else SolidPath(Lookup(e, s))
    case Choose(_, body, orelse) => Solid(body, s) && Solid(orelse, s)
    case Elements(elts) => AllSolid(elts, s)
    case _ => true
  }

  predicate AllSolid(es: seq<Node>, s: Scope)
    decreases es, 0
  {
    es == [] || (Solid(es[0], s) && AllSolid(es[1..], s))
  }

  /** No comparison anywhere in the tree has a group with a hole in it as an operand. */
  predicate ComparesSolids(e: Node, s: Scope)
    decreases e, 1
  {
    match e
    case Attribute(base, _) => ComparesSolids(base, s)
    case Binary(_, l, r) => ComparesSolids(l, s) && ComparesSolids(r, s)
    case Unary(_, x) => ComparesSolids(x, s)
    case Boolean(_, values) => AllCompareSolids(values, s)
    case Compare(first, chain) => ComparesSolids(first, s) && Solid(first, s) && ChainComparesSolids(chain, s)
    case Choose(test, body, orelse) =>
      ComparesSolids(test, s) && ComparesSolids(body, s) && ComparesSolids(orelse, s)
    case Elements(elts) => AllCompareSolids(elts, s)
    case _ => true
  }

  predicate AllCompareSolids(es: seq<Node>, s: Scope)
    decreases es, 0
  {
    es == [] || (ComparesSolids(es[0], s) && AllCompareSolids(es[1..], s))
  }

  predicate ChainComparesSolids(chain: Chain, s: Scope)
    decreases chain, 0
  {
    match chain
    case End => true
    case Then(_, operand, rest) => ComparesSolids(operand, s) && Solid(operand, s) && ChainComparesSolids(rest, s)
  }

  lemma {:induction false} EvaluatingAPathIsLookup(e: Node, s: Scope)
    requires !Lookup(e, s).NotAPath? && Evaluate(e, s).Val?
    ensures Lookup(e, s) == At(Evaluate(e, s).value) && !Evaluate(e, s).value.Unreported?
  {
    if e.Attribute? {
      EvaluatingAPathIsLookup(e.base, s);
    }
  }

  /** The point of the static condition: a solid operand that has a value has one without
      holes in it. */
  lemma {:induction false} SolidValuesAreReported(e: Node, s: Scope)
    requires Check(e).Accepted? && Solid(e, s) && Evaluate(e, s).Val?
    ensures Reported(Evaluate(e, s).value)
    decreases e, 1
  {
    match e
    case Name(_) =>
    case Attribute(base, attr) =>
      if Lookup(e, s).NotAPath? {
        SolidValuesAreReported(base, s);
      } else {
        EvaluatingAPathIsLookup(e, s);
      }
    case Choose(test, body, orelse) =>
      if Evaluate(test, s).value.b {
        SolidValuesAreReported(body, s);
      } else {
        SolidValuesAreReported(orelse, s);
      }
    case Elements(elts) => SolidElementsAreReported(elts, s);
    case Boolean(op, values) => Sound.ConnectedIsExpected(op, values, s);
    case Compare(first, chain) => Sound.ChainedIsExpected(Evaluate(first, s).value, chain, s);
    case _ =>
  }

  lemma {:induction false} SolidElementsAreReported(es: seq<Node>, s: Scope)
    requires CheckAll(es).Accepted? && AllSolid(es, s) && EvaluateAll(es, s).Val?
    ensures forall v | v in EvaluateAll(es, s).value :: Reported(v)
    decreases es, 0
  {
    if es != [] {
      SolidValuesAreReported(es[0], s);
      SolidElementsAreReported(es[1..], s);
    }
  }

  // ------------------------------------------------------------------- monotonicity

  /** What may become of an outcome when more is known: a missing fact may turn into
      anything, a value into the same value with fewer holes, and nothing else changes. */
  predicate Settles(before: Outcome<Value>, after: Outcome<Value>) {
    if before.Val? then after.Val? && Refines(before.value, after.value)
    else before.Missing? || before == after
  }

  predicate SettlesAll(before: Outcome<seq<Value>>, after: Outcome<seq<Value>>) {
    if before.Val? then
      after.Val? && |before.value| == |after.value|
      && forall i | 0 <= i < |before.value| :: Refines(before.value[i], after.value[i])
    else before.Missing? || before == after
  }

  // ---------------------------------------------- comparisons that are reached and settled

  /** Every comparison that evaluating the expression reaches is settled. */
  predicate Steady(e: Node, s: Scope)
    decreases e, 1
  {
    match e
    case Attribute(base, _) => Steady(base, s)
    case Binary(_, l, r) => Steady(l, s) && (Evaluate(l, s).Val? ==> Steady(r, s))
    case Unary(_, x) => Steady(x, s)
    case Boolean(op, values) => ConnectedSteady(op, values, s)
    case Compare(first, chain) =>
      Steady(first, s) && (Evaluate(first, s).Val? ==> ChainSteady(Evaluate(first, s).value, chain, s))
    case Choose(test, body, orelse) =>
      && Steady(test, s)
      && (Evaluate(test, s) == Val(Bool(true)) ==> Steady(body, s))
      && (Evaluate(test, s) == Val(Bool(false)) ==> Steady(orelse, s))
    case Elements(elts) => ElementsSteady(elts, s)
    case _ => true
  }

  predicate ElementsSteady(es: seq<Node>, s: Scope)
    decreases es, 0
  {
    es == [] || (Steady(es[0], s) && (Evaluate(es[0], s).Val? ==> ElementsSteady(es[1..], s)))
  }

  predicate ConnectedSteady(op: BooleanOperator, values: seq<Node>, s: Scope)
    decreases values, 0
  {
    values == []
    || (Steady(values[0], s) && (Evaluate(values[0], s) == Val(Bool(op.And?)) ==> ConnectedSteady(op, values[1..], s)))
  }

  predicate ChainSteady(left: Value, chain: Chain, s: Scope)
    decreases chain, 0
  {
    match chain
    case End => true
    case Then(op, operand, rest) =>
      && Steady(operand, s)
      && (Evaluate(operand, s).Val? ==>
            var right := Evaluate(operand, s).value;
            AnswerSettled(op, left, right) && (Compared(op, left, right) == Val(true) ==> ChainSteady(right, rest, s)))
  }

  /** Replacing unreported leaves of the scope by values leaves every answer that did not
      depend on one of them as it was, error for error and value for value, wherever the
      comparisons it took to get there were settled. */
  lemma {:induction false} SteadyIsMonotone(e: Node, s: Scope, t: Scope)
    requires Check(e).Accepted? && Steady(e, s) && ScopeRefines(s, t)
    ensures Settles(Evaluate(e, s), Evaluate(e, t))
    decreases e, 1
  {
    match e
    case Constant(v) => RefinesReflexive(v);
    case Name(id) =>
    case Attribute(_, _) => AttributeIsMonotone(e, s, t);
    case Binary(_, l, r) => BinaryIsMonotone(e, s, t);
    case Unary(_, x) => SteadyIsMonotone(x, s, t); Sound.AcceptedEvaluationIsExpected(x, s);
    case Boolean(op, values) => ConnectedIsMonotone(op, values, s, t);
    case Compare(first, chain) =>
      SteadyIsMonotone(first, s, t);
      if Evaluate(first, s).Val? {
        Sound.AcceptedEvaluationIsExpected(first, s);
        ChainedIsMonotone(Evaluate(first, s).value, Evaluate(first, t).value, chain, s, t);
      }
    case Choose(_, _, _) => ChooseIsMonotone(e, s, t);
    case Elements(elts) => EvaluateAllIsMonotone(elts, s, t);
  }

  lemma {:induction false} AttributeIsMonotone(e: Node, s: Scope, t: Scope)
    requires Check(e).Accepted? && Steady(e, s) && ScopeRefines(s, t)
    requires e.Attribute?
    ensures Settles(Evaluate(e, s), Evaluate(e, t))
    decreases e, 0
  {
    SteadyIsMonotone(e.base, s, t);
    Sound.AcceptedEvaluationIsExpected(e.base, s);
    var v, w := Evaluate(e.base, s), Evaluate(e.base, t);
    if v.Val? && v.value.Group? {
      assert ScopeRefines(v.value.members, w.value.members);
      ResolveIsMonotone(v.value.members, w.value.members, e.attr, e);
    }
  }

  lemma ResolveIsMonotone(s: Scope, t: Scope, name: string, at: Node)
    requires ScopeRefines(s, t)
    ensures Settles(Resolve(s, name, at), Resolve(t, name, at))
  {
  }

  lemma {:induction false} ChooseIsMonotone(e: Node, s: Scope, t: Scope)
    requires Check(e).Accepted? && Steady(e, s) && ScopeRefines(s, t)
    requires e.Choose?
    ensures Settles(Evaluate(e, s), Evaluate(e, t))
    decreases e, 0
  {
    SteadyIsMonotone(e.test, s, t);
    Sound.AcceptedEvaluationIsExpected(e.test, s);
    if Evaluate(e.test, s) == Val(Bool(true)) {
      SteadyIsMonotone(e.body, s, t);
    } else if Evaluate(e.test, s) == Val(Bool(false)) {
      SteadyIsMonotone(e.orelse, s, t);
    }
  }

  lemma {:induction false} BinaryIsMonotone(e: Node, s: Scope, t: Scope)
    requires Check(e).Accepted? && Steady(e, s) && ScopeRefines(s, t)
    requires e.Binary?
    ensures Settles(Evaluate(e, s), Evaluate(e, t))
    decreases e, 0
  {
    SteadyIsMonotone(e.left, s, t);
    Sound.AcceptedEvaluationIsExpected(e.left, s);
    Sound.AcceptedEvaluationIsExpected(e.right, s);
    if Evaluate(e.left, s).Val? {
      SteadyIsMonotone(e.right, s, t);
    }
  }

  lemma {:induction false} EvaluateAllIsMonotone(es: seq<Node>, s: Scope, t: Scope)
    requires CheckAll(es).Accepted? && ElementsSteady(es, s) && ScopeRefines(s, t)
    ensures SettlesAll(EvaluateAll(es, s), EvaluateAll(es, t))
    decreases es, 0
  {
    if es != [] {
      SteadyIsMonotone(es[0], s, t);
      if Evaluate(es[0], s).Val? {
        EvaluateAllIsMonotone(es[1..], s, t);
      }
    }
  }

  lemma {:induction false} ConnectedIsMonotone(op: BooleanOperator, values: seq<Node>, s: Scope, t: Scope)
    requires CheckAll(values).Accepted? && ConnectedSteady(op, values, s) && ScopeRefines(s, t)
    ensures Settles(Connected(op, values, s), Connected(op, values, t))
    decreases values, 0
  {
    if values != [] {
      SteadyIsMonotone(values[0], s, t);
      Sound.AcceptedEvaluationIsExpected(values[0], s);
      if Evaluate(values[0], s) == Val(Bool(op.And?)) {
        ConnectedIsMonotone(op, values[1..], s, t);
      }
    }
  }

  lemma {:induction false} ChainedIsMonotone(left: Value, left': Value, chain: Chain, s: Scope, t: Scope)
    requires CheckChain(chain).Accepted? && ChainSteady(left, chain, s) && ScopeRefines(s, t)
    requires !left.Unreported? && Refines(left, left')
    ensures Settles(Chained(left, chain, s), Chained(left', chain, t))
    decreases chain, 0
  {
    if chain.Then? {
      SteadyIsMonotone(chain.operand, s, t);
      Sound.AcceptedEvaluationIsExpected(chain.operand, s);
      if Evaluate(chain.operand, s).Val? {
        var right, right' := Evaluate(chain.operand, s).value, Evaluate(chain.operand, t).value;
        SettledKeepsAnswer(chain.op, left, right, left', right');
        Sound.ComparedIsExpected(chain.op, left, right);
        if Compared(chain.op, left, right) == Val(true) {
          ChainedIsMonotone(right, right', chain.rest, s, t);
        }
      }
    }
  }

  /** What can be decided before evaluating is enough: where no comparison has a group with
      a hole in it as an operand, every one of them is settled. */
  lemma {:induction false} SolidsAreSteady(e: Node, s: Scope)
    requires Check(e).Accepted? && ComparesSolids(e, s)
    ensures Steady(e, s)
    decreases e, 1
  {
    match e
    case Attribute(base, _) => SolidsAreSteady(base, s);
    case Binary(_, l, r) => SolidsAreSteady(l, s); SolidsAreSteady(r, s);
    case Unary(_, x) => SolidsAreSteady(x, s);
    case Boolean(op, values) => SolidsAreConnectedSteady(op, values, s);
    case Compare(first, chain) =>
      SolidsAreSteady(first, s);
      if Evaluate(first, s).Val? {
        SolidValuesAreReported(first, s);
        SolidsAreChainSteady(Evaluate(first, s).value, chain, s);
      }
    case Choose(test, body, orelse) => SolidsAreSteady(test, s); SolidsAreSteady(body, s); SolidsAreSteady(orelse, s);
    case Elements(elts) => SolidsAreElementsSteady(elts, s);
    case _ =>
  }

  lemma {:induction false} SolidsAreElementsSteady(es: seq<Node>, s: Scope)
    requires CheckAll(es).Accepted? && AllCompareSolids(es, s)
    ensures ElementsSteady(es, s)
    decreases es, 0
  {
    if es != [] {
      SolidsAreSteady(es[0], s);
      SolidsAreElementsSteady(es[1..], s);
    }
  }

  lemma {:induction false} SolidsAreConnectedSteady(op: BooleanOperator, values: seq<Node>, s: Scope)
    requires CheckAll(values).Accepted? && AllCompareSolids(values, s)
    ensures ConnectedSteady(op, values, s)
    decreases values, 0
  {
    if values != [] {
      SolidsAreSteady(values[0], s);
      SolidsAreConnectedSteady(op, values[1..], s);
    }
  }

  lemma {:induction false} SolidsAreChainSteady(left: Value, chain: Chain, s: Scope)
    requires CheckChain(chain).Accepted? && ChainComparesSolids(chain, s) && Reported(left)
    ensures ChainSteady(left, chain, s)
    decreases chain, 0
  {
    if chain.Then? {
      SolidsAreSteady(chain.operand, s);
      if Evaluate(chain.operand, s).Val? {
        SolidValuesAreReported(chain.operand, s);
        ReportedIsSettled(chain.op, left, Evaluate(chain.operand, s).value);
        SolidsAreChainSteady(Evaluate(chain.operand, s).value, chain.rest, s);
      }
    }
  }

  /** An expression that is refused is not evaluated, and so reaches no comparison. */
  predicate SteadyIfRead(e: Node, s: Scope) {
    Check(e).Accepted? ==> Steady(e, s)
  }

  lemma SolidsAreSteadyIfRead(e: Node, s: Scope)
    requires ComparesSolids(e, s)
    ensures SteadyIfRead(e, s)
  {
    if Check(e).Accepted? {
      SolidsAreSteady(e, s);
    }
  }

  /** So monotonicity can be read off the expression and the scope, before evaluating. */
  lemma EvaluationIsMonotone(e: Node, s: Scope, t: Scope)
    requires Check(e).Accepted? && ComparesSolids(e, s) && ScopeRefines(s, t)
    ensures Settles(Evaluate(e, s), Evaluate(e, t))
  {
    SolidsAreSteady(e, s);
    SteadyIsMonotone(e, s, t);
  }

  /** The same for a question that has to be answered with a yes or a no. */
  lemma TruthIsMonotone(e: Node, s: Scope, t: Scope)
    requires Check(e).Accepted? && Steady(e, s) && ScopeRefines(s, t)
    ensures TruthOf(e, s).Missing? || TruthOf(e, s) == TruthOf(e, t)
  {
    SteadyIsMonotone(e, s, t);
    Sound.AcceptedEvaluationIsExpected(e, s);
  }

  const HOLEY_SCOPE: Scope := map["a" := Group(map["x" := Unreported]), "b" := Group(map["x" := Unreported])]
  const FILLED_SCOPE: Scope := map["a" := Group(map["x" := Bool(true)]), "b" := Group(map["x" := Unreported])]

  lemma FillingOneHoleRefines()
    ensures ScopeRefines(HOLEY_SCOPE, FILLED_SCOPE)
  {
    RefinesReflexive(HOLEY_SCOPE["b"]);
  }

  lemma EvaluateOneComparison(op: Comparison, x: string, y: string, s: Scope)
    requires x in s && y in s && !s[x].Unreported? && !s[y].Unreported?
    ensures TruthOf(Compare(Name(x), Then(op, Name(y), End)), s) == Compared(op, s[x], s[y])
  {
    var chain := Then(op, Name(y), End);
    assert Evaluate(Name(y), s) == Val(s[y]);
    assert Chained(s[y], End, s) == Val(Bool(true));
    assert Chained(s[x], chain, s) == (var holds :- Compared(op, s[x], s[y]); Val(Bool(holds)));
    assert Evaluate(Name(x), s) == Val(s[x]);
    assert Evaluate(Compare(Name(x), chain), s) == Chained(s[x], chain, s);
  }

  /** A comparison of two facts comes to the same on every scope that knows more exactly
      when its answer is settled: the condition on the comparisons reached cannot be
      weakened. */
  lemma ComparingFactsSettlesExactly(op: Comparison, x: string, y: string, s: Scope)
    requires !op.Is? && !op.IsNot? && x != y
    requires x in s && y in s && !s[x].Unreported? && !s[y].Unreported?
    ensures var e := Compare(Name(x), Then(op, Name(y), End));
            (forall t | ScopeRefines(s, t) :: TruthOf(e, t) == TruthOf(e, s)) <==> AnswerSettled(op, s[x], s[y])
  {
    var e := Compare(Name(x), Then(op, Name(y), End));
    EvaluateOneComparison(op, x, y, s);
    if AnswerSettled(op, s[x], s[y]) {
      forall t | ScopeRefines(s, t) ensures TruthOf(e, t) == TruthOf(e, s) {
        SettledKeepsAnswer(op, s[x], s[y], t[x], t[y]);
        EvaluateOneComparison(op, x, y, t);
      }
    } else {
      var v, w := UnsettledChangesAnswer(op, s[x], s[y]);
      TwoFactsRefined(x, y, s, v, w);
      EvaluateOneComparison(op, x, y, s[x := v][y := w]);
    }
  }

  lemma TwoFactsRefined(x: string, y: string, s: Scope, v: Value, w: Value)
    requires x != y && x in s && y in s && Refines(s[x], v) && Refines(s[y], w)
    ensures ScopeRefines(s, s[x := v][y := w])
  {
    forall n | n in s ensures Refines(s[n], s[x := v][y := w][n]) {
      RefinesReflexive(s[n]);
    }
  }

  lemma ComparingTwoNamesIsAccepted()
    ensures Check(Compare(Name("a"), Then(Eq, Name("b"), End))).Accepted?
  {
    assert CheckChain(Then(Eq, Name("b"), End)).Accepted?;
  }

  /** Without the condition it fails: two groups with holes compare equal until one of the
      holes is filled, and the answer flips from yes to no. */
  lemma ComparingGroupsIsNotMonotone()
    ensures var e := Compare(Name("a"), Then(Eq, Name("b"), End));
            Check(e).Accepted? && ScopeRefines(HOLEY_SCOPE, FILLED_SCOPE)
            && TruthOf(e, HOLEY_SCOPE) == Val(true) && TruthOf(e, FILLED_SCOPE) == Val(false)
  {
    ComparingTwoNamesIsAccepted();
    EqualReflexive(HOLEY_SCOPE["a"]);
    assert "x" in FILLED_SCOPE["a"].members && !Equal(Bool(true), Unreported);
    EvaluateOneComparison(Eq, "a", "b", HOLEY_SCOPE);
    EvaluateOneComparison(Eq, "a", "b", FILLED_SCOPE);
    FillingOneHoleRefines();
  }
}
