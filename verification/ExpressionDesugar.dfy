// Rewriting an expression into a core with two-operand `and`, `not` and single
// comparisons, and why nobody could tell the difference.
module ExpressionDesugar {
  import opened Values
  import opened Expressions

  /** `a and b and c` as `a and (b and c)`. */
  function Nested(es: seq<Node>): Node {
    if es == [] then Constant(Bool(true))
    else if |es| == 1 then Boolean(And, es)
    else Boolean(And, [es[0], Nested(es[1..])])
  }

  function Negated(es: seq<Node>): (r: seq<Node>)
    ensures |r| == |es|
  {
    if es == [] then [] else [Unary(Not, es[0])] + Negated(es[1..])
  }

  function Desugar(e: Node): Node
    decreases e, 1
  {
    match e
    case Attribute(base, attr) => Attribute(Desugar(base), attr)
    case Binary(op, l, r) => Binary(op, Desugar(l), Desugar(r))
    case Unary(op, x) => Unary(op, Desugar(x))
    case Boolean(op, values) =>
      var vs := DesugarAll(values);
      if op.And? then Nested(vs) else Unary(Not, Nested(Negated(vs)))
    case Compare(first, chain) => Pairwise(Desugar(first), chain)
    case Choose(test, body, orelse) => Choose(Desugar(test), Desugar(body), Desugar(orelse))
    case Elements(elts) => Elements(DesugarAll(elts))
    case _ => e
  }

  function DesugarAll(es: seq<Node>): (r: seq<Node>)
    ensures |r| == |es|
    decreases es, 0
  {
    if es == [] then [] else [Desugar(es[0])] + DesugarAll(es[1..])
  }

  /** `a < b < c` as `a < b and b < c`. */
  function Pairwise(left: Node, chain: Chain): Node
    decreases chain, 0
  {
    match chain
    case End => Compare(left, End)
    case Then(op, operand, rest) =>
      var right := Desugar(operand);
      var pair := Compare(left, Then(op, right, End));
      if rest.End? then pair else Boolean(And, [pair, Pairwise(right, rest)])
  }

  /** The shape rewriting leaves behind. */
  predicate Core(e: Node)
    decreases e, 1
  {
    match e
    case Attribute(base, _) => Core(base)
    case Binary(_, l, r) => Core(l) && Core(r)
    case Unary(_, x) => Core(x)
    case Boolean(op, values) => op.And? && 1 <= |values| <= 2 && AllCore(values)
    case Compare(first, chain) =>
      Core(first) && (chain.Then? ==> Core(chain.operand) && chain.rest.End?)
    case Choose(test, body, orelse) => Core(test) && Core(body) && Core(orelse)
    case Elements(elts) => AllCore(elts)
    case _ => true
  }

  predicate AllCore(es: seq<Node>)
    decreases es, 0
  {
    es == [] || (Core(es[0]) && AllCore(es[1..]))
  }

  // ------------------------------------------------------------ the laws it rests on

  lemma ConnectedPair(op: BooleanOperator, a: Node, b: Node, s: Scope)
    ensures Connected(op, [a, b], s) ==
            (var v :- Evaluate(a, s); var yes :- Truth(v);
             if yes != op.And? then Val(Bool(!op.And?)) else Connected(op, [b], s))
  {
    assert [a, b][1..] == [b];
  }

  lemma ConnectedOne(op: BooleanOperator, a: Node, s: Scope)
    ensures Connected(op, [a], s) == (var v :- Evaluate(a, s); var yes :- Truth(v); Val(Bool(yes)))
  {
    assert Connected(op, [a][1..], s) == Val(Bool(op.And?));
  }

  /** An n-ary `and` means what its nested two-operand form means, failures included. */
  lemma {:induction false} NestingPreservesMeaning(es: seq<Node>, s: Scope)
    ensures Evaluate(Nested(es), s) == Connected(And, es, s)
    ensures Connected(And, es, s).Val? ==> Connected(And, es, s).value.Bool?
  {
    if |es| > 1 {
      NestingPreservesMeaning(es[1..], s);
      ConnectedPair(And, es[0], Nested(es[1..]), s);
      ConnectedOne(And, Nested(es[1..]), s);
    } else if |es| == 1 {
      ConnectedOne(And, es[0], s);
      assert es == [es[0]];
    }
  }

  function Flipped(r: Outcome<Value>): Outcome<Value> {
    var v :- r;
    var yes :- Truth(v);
    Val(Bool(!yes))
  }

  lemma {:induction false} ConnectedAnswers(op: BooleanOperator, es: seq<Node>, s: Scope)
    ensures Connected(op, es, s).Val? ==> Connected(op, es, s).value.Bool?
  {
    if es != [] {
      ConnectedAnswers(op, es[1..], s);
    }
  }

  /** De Morgan under left-to-right short-circuiting: the operand that decides one side
      decides the other, and an operand that fails on one side fails the other alike. */
  lemma {:induction false} DeMorgan(op: BooleanOperator, es: seq<Node>, s: Scope)
    ensures Flipped(Connected(op, es, s)) == Connected(if op.And? then Or else And, Negated(es), s)
  {
    if es != [] {
      var dual := if op.And? then Or else And;
      DeMorgan(op, es[1..], s);
      assert Negated(es)[0] == Unary(Not, es[0]) && Negated(es)[1..] == Negated(es[1..]);
      assert Evaluate(Unary(Not, es[0]), s) == Flipped(Evaluate(es[0], s));
      ConnectedAnswers(op, es, s);
    }
  }

  /** One `or` as a `not` over the nested `and` of the negations. */
  lemma OrIsNotAndNot(es: seq<Node>, s: Scope)
    ensures Evaluate(Unary(Not, Nested(Negated(es))), s) == Connected(Or, es, s)
  {
    DeMorgan(Or, es, s);
    NestingPreservesMeaning(Negated(es), s);
    ConnectedAnswers(Or, es, s);
  }
}

module DesugarCorrect {
  import opened Values
  import opened Expressions
  import opened ExpressionDesugar

  /** Rewriting renames the node that read a missing fact, and changes nothing else. */
  function Renamed<T>(r: Outcome<T>): Outcome<T> {
    if r.Missing? then Missing(Desugar(r.at)) else r
  }

  lemma {:induction false} DesugarPreservesMeaning(e: Node, s: Scope)
    ensures Evaluate(Desugar(e), s) == Renamed(Evaluate(e, s))
    decreases e, 1
  {
    match e
    case Attribute(base, _) => DesugarPreservesMeaning(base, s);
    case Binary(_, l, r) => DesugarPreservesMeaning(l, s); DesugarPreservesMeaning(r, s);
    case Unary(_, x) => DesugarPreservesMeaning(x, s);
    case Boolean(op, values) =>
      ConnectedPreserved(op, values, s);
      if op.And? {
        NestingPreservesMeaning(DesugarAll(values), s);
      } else {
        OrIsNotAndNot(DesugarAll(values), s);
      }
    case Compare(_, _) => CompareAsPairs(e, s);
    case Choose(_, _, _) => ChoosePreserved(e, s);
    case Elements(elts) => EvaluateAllPreserved(elts, s);
    case _ =>
  }

  lemma {:induction false} ChoosePreserved(e: Node, s: Scope)
    requires e.Choose?
    ensures Evaluate(Desugar(e), s) == Renamed(Evaluate(e, s))
    decreases e, 0
  {
    DesugarPreservesMeaning(e.test, s);
    DesugarPreservesMeaning(e.body, s);
    DesugarPreservesMeaning(e.orelse, s);
  }

  lemma {:induction false} ConnectedPreserved(op: BooleanOperator, values: seq<Node>, s: Scope)
    ensures Connected(op, DesugarAll(values), s) == Renamed(Connected(op, values, s))
    decreases values, 0
  {
    if values != [] {
      DesugarPreservesMeaning(values[0], s);
      ConnectedPreserved(op, values[1..], s);
      assert DesugarAll(values)[1..] == DesugarAll(values[1..]);
    }
  }

  lemma {:induction false} EvaluateAllPreserved(es: seq<Node>, s: Scope)
    ensures EvaluateAll(DesugarAll(es), s) == Renamed(EvaluateAll(es, s))
    decreases es, 0
  {
    if es != [] {
      DesugarPreservesMeaning(es[0], s);
      EvaluateAllPreserved(es[1..], s);
      assert DesugarAll(es)[1..] == DesugarAll(es[1..]);
    }
  }

  lemma {:induction false} CompareAsPairs(e: Node, s: Scope)
    requires e.Compare?
    ensures Evaluate(Desugar(e), s) == Renamed(Evaluate(e, s))
    decreases e, 0
  {
    DesugarPreservesMeaning(e.first, s);
    var left := Evaluate(e.first, s);
    if left.Val? {
      PairwisePreservesMeaning(Desugar(e.first), left.value, e.chain, s);
    } else {
      PairwiseFailsWithFirst(Desugar(e.first), e.chain, s);
    }
  }

  /** A chain of comparisons means the conjunction of its adjacent pairs. */
  lemma {:induction false} PairwisePreservesMeaning(first: Node, left: Value, chain: Chain, s: Scope)
    requires Evaluate(first, s) == Val(left)
    ensures Evaluate(Pairwise(first, chain), s) == Renamed(Chained(left, chain, s))
    ensures Chained(left, chain, s).Val? ==> Chained(left, chain, s).value.Bool?
    decreases chain, 0
  {
    match chain
    case End => assert Chained(left, End, s) == Val(Bool(true));
    case Then(op, operand, rest) =>
      DesugarPreservesMeaning(operand, s);
      var right := Desugar(operand);
      OnePair(first, left, op, right, s);
      if Evaluate(operand, s).Val? {
        PairwisePreservesMeaning(right, Evaluate(operand, s).value, rest, s);
      }
      if rest.Then? {
        ConjunctionOf(Compare(first, Then(op, right, End)), Pairwise(right, rest), s);
      } else if Evaluate(operand, s).Val? {
        assert Chained(Evaluate(operand, s).value, End, s) == Val(Bool(true));
      }
  }

  lemma ConjunctionOf(a: Node, b: Node, s: Scope)
    ensures Evaluate(Boolean(And, [a, b]), s) ==
            (var v :- Evaluate(a, s); var yes :- Truth(v);
             if !yes then Val(Bool(false)) else (var w :- Evaluate(b, s); var also :- Truth(w); Val(Bool(also))))
  {
    ConnectedPair(And, a, b, s);
    ConnectedOne(And, b, s);
  }

  lemma OnePair(first: Node, left: Value, op: Comparison, right: Node, s: Scope)
    requires Evaluate(first, s) == Val(left)
    ensures Evaluate(Compare(first, Then(op, right, End)), s) ==
            (var r :- Evaluate(right, s); var holds :- Compared(op, left, r); Val(Bool(holds)))
  {
    assert Evaluate(Compare(first, Then(op, right, End)), s) == Chained(left, Then(op, right, End), s);
    if Evaluate(right, s).Val? {
      assert Chained(Evaluate(right, s).value, End, s) == Val(Bool(true));
    }
  }

  lemma {:induction false} PairwiseFailsWithFirst(first: Node, chain: Chain, s: Scope)
    requires !Evaluate(first, s).Val?
    ensures Evaluate(Pairwise(first, chain), s) == Evaluate(first, s)
  {
    if chain.Then? && chain.rest.Then? {
      var right := Desugar(chain.operand);
      var pair := Compare(first, Then(chain.op, right, End));
      assert Evaluate(pair, s) == Evaluate(first, s);
      ConjunctionOf(pair, Pairwise(right, chain.rest), s);
    }
  }

  // --------------------------------------------------------------- what it leaves behind

  lemma {:induction false} NestedIsCore(es: seq<Node>)
    requires AllCore(es)
    ensures Core(Nested(es))
    ensures CheckAll(es).Accepted? <==> Check(Nested(es)).Accepted?
    ensures Names(Nested(es)) == NamesOfAll(es)
  {
    if |es| > 1 {
      NestedIsCore(es[1..]);
      var pair := [es[0], Nested(es[1..])];
      assert pair[1..] == [Nested(es[1..])] && pair[1..][1..] == [];
      assert AllCore(pair[1..]);
      assert CheckAll(pair[1..]) == Check(Nested(es[1..]));
      assert NamesOfAll(pair[1..]) == Names(Nested(es[1..]));
    }
  }

  lemma {:induction false} NegatedIsCore(es: seq<Node>)
    requires AllCore(es)
    ensures AllCore(Negated(es))
    ensures CheckAll(es).Accepted? <==> CheckAll(Negated(es)).Accepted?
    ensures NamesOfAll(Negated(es)) == NamesOfAll(es)
  {
    if es != [] {
      NegatedIsCore(es[1..]);
      assert Negated(es)[1..] == Negated(es[1..]);
    }
  }

  /** The rewritten tree is in the core, is accepted exactly when the original is, and
      reads the same names. */
  lemma {:induction false} DesugarIsCore(e: Node)
    ensures Core(Desugar(e))
    ensures Check(Desugar(e)).Accepted? <==> Check(e).Accepted?
    ensures Names(Desugar(e)) == Names(e)
    decreases e, 1
  {
    match e
    case Attribute(base, _) => DesugarIsCore(base);
    case Binary(_, l, r) => DesugarIsCore(l); DesugarIsCore(r);
    case Unary(_, x) => DesugarIsCore(x);
    case Boolean(op, values) =>
      DesugarAllIsCore(values);
      NegatedIsCore(DesugarAll(values));
      NestedIsCore(if op.And? then DesugarAll(values) else Negated(DesugarAll(values)));
    case Compare(first, chain) => DesugarIsCore(first); PairwiseIsCore(Desugar(first), chain);
    case Choose(test, body, orelse) => DesugarIsCore(test); DesugarIsCore(body); DesugarIsCore(orelse);
    case Elements(elts) => DesugarAllIsCore(elts);
    case _ =>
  }

  lemma {:induction false} DesugarAllIsCore(es: seq<Node>)
    ensures AllCore(DesugarAll(es))
    ensures CheckAll(DesugarAll(es)).Accepted? <==> CheckAll(es).Accepted?
    ensures NamesOfAll(DesugarAll(es)) == NamesOfAll(es)
    decreases es, 0
  {
    if es != [] {
      DesugarIsCore(es[0]);
      DesugarAllIsCore(es[1..]);
      assert DesugarAll(es)[1..] == DesugarAll(es[1..]);
    }
  }

  lemma {:induction false} PairwiseIsCore(left: Node, chain: Chain)
    requires Core(left)
    ensures Core(Pairwise(left, chain))
    ensures Check(Pairwise(left, chain)).Accepted? <==> Check(left).Accepted? && CheckChain(chain).Accepted?
    ensures Names(Pairwise(left, chain)) == Names(left) + NamesOfChain(chain)
    decreases chain, 0
  {
    match chain
    case End =>
      assert CheckChain(End).Accepted? && NamesOfChain(End) == {};
    case Then(op, operand, rest) =>
      DesugarIsCore(operand);
      var right := Desugar(operand);
      PairIsCore(left, op, right);
      if rest.Then? {
        PairwiseIsCore(right, rest);
        PairOfTwo(Compare(left, Then(op, right, End)), Pairwise(right, rest));
      } else {
        assert CheckChain(rest).Accepted? && NamesOfChain(rest) == {};
      }
  }

  lemma PairIsCore(left: Node, op: Comparison, right: Node)
    requires Core(left) && Core(right)
    ensures var pair := Compare(left, Then(op, right, End));
            Core(pair) && Names(pair) == Names(left) + Names(right)
            && (Check(pair).Accepted? <==> Check(left).Accepted? && Check(right).Accepted?)
  {
    assert NamesOfChain(End) == {} && CheckChain(End).Accepted?;
    assert NamesOfChain(Then(op, right, End)) == Names(right);
    assert CheckChain(Then(op, right, End)) == CheckBoth(Check(right), Accepted);
  }

  lemma PairOfTwo(a: Node, b: Node)
    requires Core(a) && Core(b)
    ensures var both := Boolean(And, [a, b]);
            Core(both) && Names(both) == Names(a) + Names(b)
            && (Check(both).Accepted? <==> Check(a).Accepted? && Check(b).Accepted?)
  {
    var pair := [a, b];
    assert pair[1..] == [b] && pair[1..][1..] == [];
    assert AllCore(pair[1..]);
    assert NamesOfAll(pair[1..]) == Names(b) + NamesOfAll(pair[1..][1..]);
    assert CheckAll(pair[1..]) == CheckBoth(Check(b), CheckAll(pair[1..][1..]));
  }
}
