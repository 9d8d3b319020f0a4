// What an expression of each kind comes to, said of the values of its parts and not of how
// they are combined: which way a comparison points, what equality compares, which operand of
// a connective decides, and what may be named.
module ExpressionMeaning {
  import opened Values
  import opened Expressions
  import opened ExpressionOperators
  import Sound = ExpressionSoundness
  import Text

  /** Asking `a op b` is answered so. */
  ghost predicate Answered(a: Node, op: Comparison, b: Node, s: Scope, yes: bool) {
    TruthOf(Compare(a, Then(op, b, End)), s) == Val(yes)
  }

  // ------------------------------------------------------------------------------- order

  lemma SixComparisons(a: Node, b: Node, s: Scope, v: Value, w: Value)
    requires Evaluate(a, s) == Val(v) && Evaluate(b, s) == Val(w)
    ensures forall op | op in {Lt, LtE, Gt, GtE, Eq, NotEq} :: TruthOf(Compare(a, Then(op, b, End)), s) == Compared(op, v, w)
  {
    forall op | op in {Lt, LtE, Gt, GtE, Eq, NotEq} ensures TruthOf(Compare(a, Then(op, b, End)), s) == Compared(op, v, w) {
      OneComparison(a, op, b, s, v, w);
    }
  }

  lemma NumbersBySize(x: Number, y: Number)
    ensures Compared(Lt, Num(x), Num(y)) == Val(x.Real() < y.Real()) && Compared(LtE, Num(x), Num(y)) == Val(x.Real() <= y.Real())
    ensures Compared(Gt, Num(x), Num(y)) == Val(x.Real() > y.Real()) && Compared(GtE, Num(x), Num(y)) == Val(x.Real() >= y.Real())
    ensures Compared(Eq, Num(x), Num(y)) == Val(x.Real() == y.Real()) && Compared(NotEq, Num(x), Num(y)) == Val(x.Real() != y.Real())
  {
  }

  /** Numbers are compared by size, whichever of the two numeric types each of them has. */
  lemma NumbersCompareBySize(a: Node, b: Node, s: Scope, x: Number, y: Number)
    requires Evaluate(a, s) == Val(Num(x)) && Evaluate(b, s) == Val(Num(y))
    ensures Answered(a, Lt, b, s, x.Real() < y.Real()) && Answered(a, LtE, b, s, x.Real() <= y.Real())
    ensures Answered(a, Gt, b, s, x.Real() > y.Real()) && Answered(a, GtE, b, s, x.Real() >= y.Real())
    ensures Answered(a, Eq, b, s, x.Real() == y.Real()) && Answered(a, NotEq, b, s, x.Real() != y.Real())
  {
    SixComparisons(a, b, s, Num(x), Num(y));
    NumbersBySize(x, y);
  }

  /** Texts are compared by the first character they differ in, and where there is none the
      shorter one is less. */
  lemma TextsCompareByFirstDifference(a: Node, b: Node, s: Scope, x: string, y: string)
    requires Evaluate(a, s) == Val(Text(x)) && Evaluate(b, s) == Val(Text(y))
    ensures Answered(a, Lt, b, s, Text.Precedes(x, y)) && Answered(a, LtE, b, s, x == y || Text.Precedes(x, y))
    ensures Answered(a, Gt, b, s, Text.Precedes(y, x)) && Answered(a, GtE, b, s, x == y || Text.Precedes(y, x))
    ensures Answered(a, Eq, b, s, x == y) && Answered(a, NotEq, b, s, x != y)
  {
    SixComparisons(a, b, s, Text(x), Text(y));
    Text.BeforeExactly(x, y);
    Text.BeforeExactly(y, x);
  }

  // ---------------------------------------------------------------------------- equality

  /** What a yes or a no counts as beside a number. */
  function Worth(b: bool): real {
    if b then 1.0 else 0.0
  }

  /** The kinds of value between which nothing is ever equal; a yes and a no count as numbers. */
  function KindOf(v: Value): nat {
    match v
    case Nothing => 0
    case Bool(_) => 1
    case Num(_) => 1
    case Text(_) => 2
    case Tuple(_) => 3
    case List(_) => 4
    case Group(_) => 5
    case Unreported => 6
  }

  /** Values of one kind are equal exactly when what they hold is, part by part: yes and no
      as one and zero, lists place by place, groups key by key. */
  lemma EqualityByKind(v: Value, w: Value)
    ensures KindOf(v) != KindOf(w) ==> !Holds(Eq, v, w)
    ensures v.Num? && w.Num? ==> (Holds(Eq, v, w) <==> v.n.Real() == w.n.Real())
    ensures v.Bool? && w.Num? ==> (Holds(Eq, v, w) <==> Worth(v.b) == w.n.Real()) && (Holds(Eq, w, v) <==> Holds(Eq, v, w))
    ensures v.Bool? && w.Bool? ==> (Holds(Eq, v, w) <==> v.b == w.b)
    ensures v.Text? && w.Text? ==> (Holds(Eq, v, w) <==> v.s == w.s)
    ensures v.Nothing? && w.Nothing? ==> Holds(Eq, v, w)
    ensures v.Tuple? && w.Tuple? ==> (Holds(Eq, v, w) <==> SameItems(v.items, w.items))
    ensures v.List? && w.List? ==> (Holds(Eq, v, w) <==> SameItems(v.items, w.items))
    ensures v.Group? && w.Group? ==>
              (Holds(Eq, v, w) <==>
               v.members.Keys == w.members.Keys && forall k | k in v.members :: Holds(Eq, v.members[k], w.members[k]))
  {
    if v.Bool? && w.Num? {
      EqualityIsAnEquivalence(v, w, v);
      EqualityIsAnEquivalence(w, v, w);
    }
  }

  ghost predicate SameItems(x: seq<Value>, y: seq<Value>) {
    |x| == |y| && forall i | 0 <= i < |x| :: Holds(Eq, x[i], y[i])
  }

  /** The three negated comparisons answer the other way, and fail where the plain one does;
      `is` asks for the very value, so that only none is none. */
  lemma NegatedComparisons(a: Node, b: Node, s: Scope, v: Value, w: Value)
    requires Evaluate(a, s) == Val(v) && Evaluate(b, s) == Val(w)
    ensures TruthOf(Compare(a, Then(NotEq, b, End)), s) == Opposite(TruthOf(Compare(a, Then(Eq, b, End)), s))
    ensures TruthOf(Compare(a, Then(IsNot, b, End)), s) == Opposite(TruthOf(Compare(a, Then(Is, b, End)), s))
    ensures TruthOf(Compare(a, Then(NotIn, b, End)), s) == Opposite(TruthOf(Compare(a, Then(In, b, End)), s))
    ensures w.Nothing? || w.Bool? ==> Answered(a, Is, b, s, v == w)
  {
    OneComparison(a, Eq, b, s, v, w);
    OneComparison(a, NotEq, b, s, v, w);
    OneComparison(a, Is, b, s, v, w);
    OneComparison(a, IsNot, b, s, v, w);
    OneComparison(a, In, b, s, v, w);
    OneComparison(a, NotIn, b, s, v, w);
    OppositeAnswers(v, w);
  }

  lemma OppositeAnswers(v: Value, w: Value)
    ensures Compared(NotEq, v, w) == Opposite(Compared(Eq, v, w)) && Compared(IsNot, v, w) == Opposite(Compared(Is, v, w))
    ensures Compared(NotIn, v, w) == Opposite(Compared(In, v, w))
  {
  }

  function Opposite(answer: Outcome<bool>): Outcome<bool> {
    match answer
    case Val(yes) => Val(!yes)
    case Missing(at) => Missing(at)
    case Wrong(fault) => Wrong(fault)
    case Crash(panic) => Crash(panic)
  }

  /** One text is in another exactly when it stands somewhere in it; nothing is in anything
      but a text or what a list of the language comes to. */
  lemma MembershipInText(a: Node, b: Node, s: Scope, v: Value, w: Value)
    requires Evaluate(a, s) == Val(v) && Evaluate(b, s) == Val(w)
    ensures v.Text? && w.Text? ==> Answered(a, In, b, s, exists k :: Text.OccursAt(w.s, v.s, k))
    ensures !w.Text? && !w.Tuple? ==> TruthOf(Compare(a, Then(In, b, End)), s) == Wrong(NothingCanBeIn)
  {
    OneComparison(a, In, b, s, v, w);
    if v.Text? && w.Text? {
      Text.ContainsExactly(w.s, v.s);
    }
  }

  // ------------------------------------------------------------- connectives and choices

  /** The operand leaves the answer to the ones after it: a yes of `and`, a no of `or`. */
  ghost predicate Passes(op: BooleanOperator, e: Node, s: Scope) {
    TruthOf(e, s) == Val(op.And?)
  }

  ghost predicate FirstDecider(op: BooleanOperator, values: seq<Node>, s: Scope, k: nat) {
    k < |values| && !Passes(op, values[k], s) && forall i | 0 <= i < k :: Passes(op, values[i], s)
  }

  lemma ConnectedByTruth(op: BooleanOperator, values: seq<Node>, s: Scope)
    ensures values == [] ==> TruthOf(Boolean(op, values), s) == Val(op.And?)
    ensures values != [] ==>
              TruthOf(Boolean(op, values), s) ==
              if Passes(op, values[0], s) then TruthOf(Boolean(op, values[1..]), s) else TruthOf(values[0], s)
  {
    assert Evaluate(Boolean(op, values), s) == Connected(op, values, s);
  }

  /** `and` is yes when every operand is and `or` is no when every operand is; otherwise the
      first operand that says something else decides, with a no or a yes, or by failing. */
  lemma {:induction false} FirstDeciderDecides(op: BooleanOperator, values: seq<Node>, s: Scope)
    ensures (forall i | 0 <= i < |values| :: Passes(op, values[i], s)) ==> TruthOf(Boolean(op, values), s) == Val(op.And?)
    ensures forall k: nat | FirstDecider(op, values, s, k) :: TruthOf(Boolean(op, values), s) == TruthOf(values[k], s)
  {
    ConnectedByTruth(op, values, s);
    if values != [] {
      FirstDeciderDecides(op, values[1..], s);
      forall k: nat | FirstDecider(op, values, s, k) ensures TruthOf(Boolean(op, values), s) == TruthOf(values[k], s) {
        if k > 0 {
          assert Passes(op, values[0], s);
          assert FirstDecider(op, values[1..], s, k - 1);
        }
      }
    }
  }

  /** A choice comes to its first branch where the test is yes, to its second where it is no,
      and to the test's failure where it has neither answer. */
  lemma ChoiceFollowsItsTest(test: Node, body: Node, orelse: Node, s: Scope)
    ensures var e := Choose(test, body, orelse); var answer := TruthOf(test, s);
            && (answer == Val(true) ==> Evaluate(e, s) == Evaluate(body, s))
            && (answer == Val(false) ==> Evaluate(e, s) == Evaluate(orelse, s))
            && (!answer.Val? ==> Evaluate(e, s) == answer.PropagateFailure<Value>())
    ensures TruthOf(test, s) == Val(true) ==> TruthOf(Unary(Not, test), s) == Val(false)
    ensures TruthOf(test, s) == Val(false) ==> TruthOf(Unary(Not, test), s) == Val(true)
  {
    ChoiceByTruth(test, body, orelse, s);
    NegatedTruth(test, s);
  }

  // -------------------------------------------------------------------------- arithmetic

  /** The sign before a number, and the five operations between two, as numbers. */
  lemma ArithmeticIsOfNumbers(l: Node, r: Node, s: Scope, x: Number, y: Number)
    requires Evaluate(l, s) == Val(Num(x)) && Evaluate(r, s) == Val(Num(y))
    ensures ComesTo(Binary(Add, l, r), s, x.Real() + y.Real()) && ComesTo(Binary(Sub, l, r), s, x.Real() - y.Real())
    ensures ComesTo(Binary(Mult, l, r), s, x.Real() * y.Real())
    ensures y.Real() != 0.0 ==> ComesTo(Binary(Div, l, r), s, x.Real() / y.Real())
    ensures y.Real() == 0.0 ==>
              && Evaluate(Binary(Div, l, r), s) == Wrong(ByZero) && Evaluate(Binary(FloorDiv, l, r), s) == Wrong(ByZero)
              && Evaluate(Binary(Mod, l, r), s) == Wrong(ByZero)
    ensures ComesTo(Unary(Negate, l), s, -x.Real()) && ComesTo(Unary(Plus, l), s, x.Real())
  {
    BinaryGives(Add, l, r, s, x, y);
    BinaryGives(Sub, l, r, s, x, y);
    BinaryGives(Mult, l, r, s, x, y);
    SumIs(x, y);
    ProductIs(x, y);
    if y.Real() != 0.0 {
      BinaryGives(Div, l, r, s, x, y);
    }
  }

  ghost predicate ComesTo(e: Node, s: Scope, r: real) {
    && Evaluate(e, s).Val? && Evaluate(e, s).value.Num? && Evaluate(e, s).value.n.Real() == r
  }

  /** The left operand is asked first: its failure, or its not being a number, is what the
      operation comes to whatever the right one is. */
  lemma LeftOperandFirst(op: BinaryOperator, l: Node, r: Node, s: Scope)
    ensures var x, y, e := Evaluate(l, s), Evaluate(r, s), Evaluate(Binary(op, l, r), s);
            && (!x.Val? ==> e == x)
            && (x.Val? && !x.value.Num? ==> e == Wrong(NotANumber))
            && (x.Val? && x.value.Num? && !y.Val? ==> e == y)
            && (x.Val? && x.value.Num? && y.Val? && !y.value.Num? ==> e == Wrong(NotANumber))
  {
  }

  // ------------------------------------------------------------------- lists and names

  ghost predicate FirstFailure(es: seq<Node>, s: Scope, k: nat) {
    k < |es| && !Evaluate(es[k], s).Val? && forall i | 0 <= i < k :: Evaluate(es[i], s).Val?
  }

  /** Each item is what the element in its place comes to. */
  ghost predicate ItemsOf(es: seq<Node>, s: Scope, items: seq<Value>) {
    |items| == |es| && forall i | 0 <= i < |es| :: Evaluate(es[i], s) == Val(items[i])
  }

  lemma {:induction false} AllAreEvaluated(es: seq<Node>, s: Scope)
    ensures EvaluateAll(es, s).Val? ==> ItemsOf(es, s, EvaluateAll(es, s).value)
    ensures !EvaluateAll(es, s).Val? ==>
              exists k: nat :: FirstFailure(es, s, k) && EvaluateAll(es, s) == Evaluate(es[k], s).PropagateFailure<seq<Value>>()
  {
    if es != [] {
      var rest := es[1..];
      AllAreEvaluated(rest, s);
      if !Evaluate(es[0], s).Val? {
        assert FirstFailure(es, s, 0);
      } else if !EvaluateAll(rest, s).Val? {
        var k: nat :| FirstFailure(rest, s, k) && EvaluateAll(rest, s) == Evaluate(rest[k], s).PropagateFailure<seq<Value>>();
        assert es[k + 1] == rest[k];
        assert FirstFailure(es, s, k + 1);
      }
    }
  }

  /** A list comes to its items, each in its place, or to the first failure among them. */
  lemma ListsKeepTheirItems(es: seq<Node>, s: Scope)
    ensures var e := Evaluate(Elements(es), s);
            if e.Val? then e.value.Tuple? && ItemsOf(es, s, e.value.items)
            else exists k: nat :: FirstFailure(es, s, k) && e == Evaluate(es[k], s)
  {
    AllAreEvaluated(es, s);
  }

  /** A name is read off the scope and an attribute off the group its base comes to; what is
      not there is a mistake, what nobody collected is missing, named by the node that read it. */
  lemma NamesAreLookedUp(e: Node, s: Scope)
    requires e.Name? || (e.Attribute? && Evaluate(e.base, s).Val? && Evaluate(e.base, s).value.Group?)
    ensures var (m, key) := if e.Name? then (s, e.id) else (Evaluate(e.base, s).value.members, e.attr);
            && (key !in m ==> Evaluate(e, s) == Wrong(Undefined))
            && (key in m && m[key] == Unreported ==> Evaluate(e, s) == Missing(e))
            && (key in m && m[key] != Unreported ==> Evaluate(e, s) == Val(m[key]))
  {
  }

  /** What is allowed of one node: literals that are none, a yes or a no, a number or a text,
      and names that do not begin with an underscore. */
  lemma AllowedAlone(v: Value, name: string, base: Node)
    ensures Check(Constant(v)).Accepted? <==> v == Nothing || v.Bool? || v.Num? || v.Text?
    ensures Check(Name(name)).Accepted? <==> !("_" <= name)
    ensures Check(Attribute(base, name)).Accepted? <==> Check(base).Accepted? && !("_" <= name)
  {
  }

  /** What is wrong where an operand is of the wrong kind. */
  lemma MistakesAreNamed(e: Node, s: Scope, v: Value, attr: string, op: UnaryOperator)
    requires Evaluate(e, s) == Val(v)
    ensures !v.Group? ==> Evaluate(Attribute(e, attr), s) == Wrong(NotAGroup)
    ensures !v.Bool? ==> TruthOf(e, s) == Wrong(NotYesNo)
    ensures op.Not? && !v.Bool? ==> Evaluate(Unary(op, e), s) == Wrong(NotYesNo)
    ensures !op.Not? && !v.Num? ==> Evaluate(Unary(op, e), s) == Wrong(NotANumber)
    ensures v.Bool? ==> TruthOf(e, s) == Val(v.b)
  {
  }

  /** A failure of the operand is the failure of all of these. */
  lemma FailuresGoThrough(e: Node, s: Scope, attr: string, op: UnaryOperator, chain: Chain)
    requires !Evaluate(e, s).Val?
    ensures Evaluate(Attribute(e, attr), s) == Evaluate(e, s) && Evaluate(Unary(op, e), s) == Evaluate(e, s)
    ensures Evaluate(Compare(e, chain), s) == Evaluate(e, s)
    ensures TruthOf(e, s) == Evaluate(e, s).PropagateFailure<bool>()
  {
  }

  /** The names an expression is said to read are those written in it, wherever they stand. */
  lemma {:induction false} NamesAreThoseWritten(e: Node, name: string)
    ensures name in Names(e) <==> Name(name) in Sound.Nodes(e)
    decreases e, 1
  {
    match e
    case Attribute(base, _) => NamesAreThoseWritten(base, name);
    case Binary(_, l, r) => NamesAreThoseWritten(l, name); NamesAreThoseWritten(r, name);
    case Unary(_, x) => NamesAreThoseWritten(x, name);
    case Boolean(_, values) => NamesOfAllAreWritten(values, name);
    case Compare(first, chain) => NamesAreThoseWritten(first, name); NamesOfChainAreWritten(chain, name);
    case Choose(test, body, orelse) =>
      NamesAreThoseWritten(test, name);
      NamesAreThoseWritten(body, name);
      NamesAreThoseWritten(orelse, name);
    case Elements(elts) => NamesOfAllAreWritten(elts, name);
    case _ =>
  }

  lemma {:induction false} NamesOfAllAreWritten(es: seq<Node>, name: string)
    ensures name in NamesOfAll(es) <==> Name(name) in Sound.NodesOfAll(es)
    decreases es, 0
  {
    if es != [] {
      NamesAreThoseWritten(es[0], name);
      NamesOfAllAreWritten(es[1..], name);
    }
  }

  lemma {:induction false} NamesOfChainAreWritten(chain: Chain, name: string)
    ensures name in NamesOfChain(chain) <==> Name(name) in Sound.NodesOfChain(chain)
    decreases chain, 0
  {
    if chain.Then? {
      NamesAreThoseWritten(chain.operand, name);
      NamesOfChainAreWritten(chain.rest, name);
    }
  }
}
