// What the operators of an expression come to, said without repeating how each of them is
// worked out: the laws that fix a quotient and a remainder, and the order comparisons make.
module ExpressionOperators {
  import opened Values
  import opened Expressions
  import DesugarCorrect
  import Text

  // ------------------------------------------------------------------------ arithmetic

  function ResultOf(op: BinaryOperator, x: Number, y: Number): real
    requires Arithmetic(op, x, y).Val?
  {
    Arithmetic(op, x, y).value.Real()
  }

  predicate Divides(op: BinaryOperator) {
    op.Div? || op.FloorDiv? || op.Mod?
  }

  /** Between two numbers an accepted operator fails exactly when it divides by zero. */
  lemma ArithmeticAnswersExactly(op: BinaryOperator, x: Number, y: Number)
    requires !op.OtherBinary?
    ensures Arithmetic(op, x, y) == Wrong(ByZero) <==> Divides(op) && y.Real() == 0.0
    ensures Arithmetic(op, x, y).Val? <==> !(Divides(op) && y.Real() == 0.0)
    ensures Arithmetic(op, x, y).Val? ==> (Arithmetic(op, x, y).value.Whole? <==> x.Whole? && y.Whole? && !op.Div?)
  {
  }

  lemma ProductOfWholes(a: int, b: int)
    ensures (a * b) as real == (a as real) * (b as real)
  {
  }

  lemma QuotientTimes(x: real, y: real)
    requires y != 0.0
    ensures (x / y) * y == x
  {
  }

  /** A quotient that lies between a number and the next, multiplied out. */
  lemma ScaledBounds(x: real, y: real, t: real, q: real)
    requires x == t * y && q <= t < q + 1.0
    ensures y > 0.0 ==> 0.0 <= x - y * q < y
    ensures y < 0.0 ==> y < x - y * q <= 0.0
  {
    var d := t - q;
    assert x - y * q == d * y;
    if y > 0.0 {
      assert 0.0 <= d * y;
      assert (1.0 - d) * y > 0.0;
    } else if y < 0.0 {
      assert 0.0 <= d * -y;
      assert (1.0 - d) * -y > 0.0;
    }
  }

  /** Taking the divisor out a whole number of times leaves something smaller than it, on
      the same side of zero. */
  ghost predicate DividesFully(x: real, y: real, q: int, m: real) {
    && x == y * q as real + m
    && (y > 0.0 ==> 0.0 <= m < y) && (y < 0.0 ==> y < m <= 0.0)
  }

  lemma FloorDividesFully(x: real, y: real)
    requires y != 0.0
    ensures DividesFully(x, y, FloorQuotient(x, y), x - y * FloorQuotient(x, y) as real)
  {
    QuotientTimes(x, y);
    FloorIsNearest(x / y);
    ScaledBounds(x, y, x / y, FloorQuotient(x, y) as real);
  }

  lemma QuotientAndRemainder(x: Number, y: Number)
    requires y.Real() != 0.0
    ensures Arithmetic(FloorDiv, x, y).Val? && Arithmetic(Mod, x, y).Val?
    ensures var q := FloorQuotient(x.Real(), y.Real()) as real;
            ResultOf(FloorDiv, x, y) == q && ResultOf(Mod, x, y) == x.Real() - y.Real() * q
  {
    if x.Whole? && y.Whole? {
      ProductOfWholes(y.i, FloorQuotient(x.Real(), y.Real()));
    }
  }

  /** Floor division and remainder divide fully, whatever the signs of the two numbers. */
  lemma DivisionIsFull(x: Number, y: Number)
    requires y.Real() != 0.0
    ensures Arithmetic(FloorDiv, x, y).Val? && Arithmetic(Mod, x, y).Val?
    ensures exists q: int :: ResultOf(FloorDiv, x, y) == q as real
                             && DividesFully(x.Real(), y.Real(), q, ResultOf(Mod, x, y))
  {
    QuotientAndRemainder(x, y);
    FloorDividesFully(x.Real(), y.Real());
  }

  /** And no other quotient and remainder do. */
  lemma FullDivisionIsUnique(x: real, y: real, q: int, m: real, q': int, m': real)
    requires y != 0.0 && DividesFully(x, y, q, m) && DividesFully(x, y, q', m')
    ensures q == q' && m == m'
  {
    QuotientIsNoSmaller(x, y, q, m, q', m');
    QuotientIsNoSmaller(x, y, q', m', q, m);
  }

  lemma QuotientIsNoSmaller(x: real, y: real, q: int, m: real, q': int, m': real)
    requires y != 0.0 && DividesFully(x, y, q, m) && DividesFully(x, y, q', m')
    ensures q <= q'
  {
    var p, p' := y * q as real, y * q' as real;
    NotFarApart(y, p, m, p', m');
    CloseTogether(y, q, q', p, p');
  }

  lemma CloseTogether(y: real, q: int, q': int, p: real, p': real)
    requires p == y * q as real && p' == y * q' as real
    requires y != 0.0 && (y > 0.0 ==> p - p' < y) && (y < 0.0 ==> p - p' > y)
    ensures q <= q'
  {
    if q > q' {
      Apart(y, q as real, q' as real);
    }
  }

  lemma NotFarApart(y: real, p: real, m: real, p': real, m': real)
    requires y != 0.0 && p + m == p' + m'
    requires y > 0.0 ==> 0.0 <= m < y && 0.0 <= m' < y
    requires y < 0.0 ==> y < m <= 0.0 && y < m' <= 0.0
    ensures y > 0.0 ==> p - p' < y
    ensures y < 0.0 ==> p - p' > y
  {
  }

  lemma Apart(y: real, q: real, q': real)
    requires q - q' >= 1.0
    ensures y > 0.0 ==> y * q - y * q' >= y
    ensures y < 0.0 ==> y * q - y * q' <= y
  {
    var e := q - q' - 1.0;
    assert y * q - y * q' == y + y * e;
    assert y > 0.0 ==> y * e >= 0.0;
    assert y < 0.0 ==> (-y) * e >= 0.0;
  }

  /** Subtraction undoes addition. */
  lemma SubtractionUndoesAddition(x: Number, y: Number)
    ensures var sum := Arithmetic(Add, x, y).value; ResultOf(Sub, sum, y) == x.Real()
  {
  }

  lemma ProductIs(x: Number, y: Number)
    ensures Arithmetic(Mult, x, y).value.Real() == x.Real() * y.Real()
  {
    if x.Whole? && y.Whole? {
      ProductOfWholes(x.i, y.i);
    }
  }

  /** Division undoes multiplication, and multiplication division. */
  lemma DivisionUndoesMultiplication(x: Number, y: Number)
    requires y.Real() != 0.0
    ensures var product := Arithmetic(Mult, x, y).value; ResultOf(Div, product, y) == x.Real()
    ensures var quotient := Arithmetic(Div, x, y).value; ResultOf(Mult, quotient, y) == x.Real()
  {
    ProductIs(x, y);
    TimesOver(x.Real(), y.Real());
    QuotientTimes(x.Real(), y.Real());
    ProductIs(Arithmetic(Div, x, y).value, y);
  }

  lemma TimesOver(x: real, y: real)
    requires y != 0.0
    ensures (x * y) / y == x
  {
  }

  // ------------------------------------------------------------------------ comparisons

  predicate Ordering(op: Comparison) {
    op.Lt? || op.LtE? || op.Gt? || op.GtE?
  }

  /** Two values an order is kept between: numbers, or texts. */
  predicate Orderable(a: Value, b: Value) {
    (a.Num? && b.Num?) || (a.Text? && b.Text?)
  }

  predicate Holds(op: Comparison, a: Value, b: Value) {
    Compared(op, a, b) == Val(true)
  }

  /** The four ordering operators and equality are one total order on orderable values:
      exactly one of less, equal and greater holds, and the others follow from it; between
      anything else there is no order at all. */
  lemma OrderIsTotal(a: Value, b: Value)
    ensures forall op | Ordering(op) :: if Orderable(a, b) then Compared(op, a, b).Val? else Compared(op, a, b) == Wrong(NoOrder)
    ensures Orderable(a, b) ==>
              && (Holds(Lt, a, b) || Holds(Eq, a, b) || Holds(Gt, a, b))
              && !(Holds(Lt, a, b) && Holds(Eq, a, b)) && !(Holds(Lt, a, b) && Holds(Gt, a, b))
              && !(Holds(Eq, a, b) && Holds(Gt, a, b))
              && (Holds(LtE, a, b) <==> Holds(Lt, a, b) || Holds(Eq, a, b))
              && (Holds(GtE, a, b) <==> Holds(Gt, a, b) || Holds(Eq, a, b))
              && (Holds(Gt, a, b) <==> Holds(Lt, b, a))
  {
    if a.Text? && b.Text? {
      Text.BeforeTotal(a.s, b.s);
      if Text.Before(a.s, b.s) {
        Text.BeforeAsymmetric(a.s, b.s);
      }
      if Text.Before(b.s, a.s) {
        Text.BeforeAsymmetric(b.s, a.s);
      }
    }
  }

  lemma OrderIsTransitive(a: Value, b: Value, c: Value)
    requires Orderable(a, b) && Orderable(b, c) && Holds(Lt, a, b) && Holds(Lt, b, c)
    ensures Holds(Lt, a, c)
  {
    if a.Text? {
      Text.BeforeTransitive(a.s, b.s, c.s);
    }
  }

  /** Equality is an equivalence on every value there is, groups and numbers included. */
  lemma EqualityIsAnEquivalence(a: Value, b: Value, c: Value)
    ensures Holds(Eq, a, a)
    ensures Holds(Eq, a, b) ==> Holds(Eq, b, a)
    ensures Holds(Eq, a, b) && Holds(Eq, b, c) ==> Holds(Eq, a, c)
  {
    EqualReflexive(a);
    if Equal(a, b) {
      EqualSymmetric(a, b);
      if Equal(b, c) {
        EqualTransitive(a, b, c);
      }
    }
  }

  /** Something is in a list exactly when it equals one of its items, and `not in` is the
      other answer. */
  lemma MembershipIsEqualityWithOne(a: Value, items: seq<Value>)
    ensures Holds(In, a, Tuple(items)) <==> exists item | item in items :: Holds(Eq, a, item)
    ensures Holds(NotIn, a, Tuple(items)) <==> !Holds(In, a, Tuple(items))
  {
    if exists item | item in items :: Holds(Eq, a, item) {
      var item :| item in items && Holds(Eq, a, item);
      var i :| 0 <= i < |items| && items[i] == item;
      assert Equal(a, items[i]);
    }
    if Holds(In, a, Tuple(items)) {
      var i :| 0 <= i < |items| && Equal(a, items[i]);
      assert items[i] in items && Holds(Eq, a, items[i]);
    }
  }

  // ------------------------------------------------------------------- whole expressions

  lemma BinaryGives(op: BinaryOperator, l: Node, r: Node, s: Scope, x: Number, y: Number)
    requires Evaluate(l, s) == Val(Num(x)) && Evaluate(r, s) == Val(Num(y)) && Arithmetic(op, x, y).Val?
    ensures Evaluate(Binary(op, l, r), s) == Val(Num(Arithmetic(op, x, y).value))
  {
  }

  lemma OneComparison(a: Node, op: Comparison, b: Node, s: Scope, v: Value, w: Value)
    requires Evaluate(a, s) == Val(v) && Evaluate(b, s) == Val(w)
    ensures TruthOf(Compare(a, Then(op, b, End)), s) == Compared(op, v, w)
  {
    DesugarCorrect.OnePair(a, v, op, b, s);
    TruthOfAnswer(Compare(a, Then(op, b, End)), s, Compared(op, v, w));
  }

  lemma TruthOfAnswer(e: Node, s: Scope, answer: Outcome<bool>)
    requires Evaluate(e, s) == (var yes :- answer; Val(Bool(yes)))
    ensures TruthOf(e, s) == answer
  {
  }

  /** `l // r * r + l % r == l` comes to yes wherever both sides are numbers and the right
      one is not zero. */
  lemma DivisionIdentityHolds(l: Node, r: Node, s: Scope, x: Number, y: Number)
    requires Evaluate(l, s) == Val(Num(x)) && Evaluate(r, s) == Val(Num(y)) && y.Real() != 0.0
    ensures var whole := Binary(Mult, Binary(FloorDiv, l, r), r);
            TruthOf(Compare(Binary(Add, whole, Binary(Mod, l, r)), Then(Eq, l, End)), s) == Val(true)
  {
    var sum := PutTogether(x, y);
    SumGives(l, r, s, x, y);
    OneComparison(Binary(Add, Binary(Mult, Binary(FloorDiv, l, r), r), Binary(Mod, l, r)), Eq, l, s, Num(sum), Num(x));
    PutTogetherIs(x, y);
  }

  /** `l + r - r == l` comes to yes wherever both sides are numbers. */
  lemma SubtractionIdentityHolds(l: Node, r: Node, s: Scope, x: Number, y: Number)
    requires Evaluate(l, s) == Val(Num(x)) && Evaluate(r, s) == Val(Num(y))
    ensures TruthOf(Compare(Binary(Sub, Binary(Add, l, r), r), Then(Eq, l, End)), s) == Val(true)
  {
    var sum := Arithmetic(Add, x, y).value;
    BinaryGives(Add, l, r, s, x, y);
    BinaryGives(Sub, Binary(Add, l, r), r, s, sum, y);
    SubtractionUndoesAddition(x, y);
    OneComparison(Binary(Sub, Binary(Add, l, r), r), Eq, l, s, Num(Arithmetic(Sub, sum, y).value), Num(x));
  }

  /** `l * r / r == l` comes to yes wherever both are numbers and the right one is not zero. */
  lemma QuotientIdentityHolds(l: Node, r: Node, s: Scope, x: Number, y: Number)
    requires Evaluate(l, s) == Val(Num(x)) && Evaluate(r, s) == Val(Num(y)) && y.Real() != 0.0
    ensures TruthOf(Compare(Binary(Div, Binary(Mult, l, r), r), Then(Eq, l, End)), s) == Val(true)
  {
    var product := Arithmetic(Mult, x, y).value;
    BinaryGives(Mult, l, r, s, x, y);
    BinaryGives(Div, Binary(Mult, l, r), r, s, product, y);
    DivisionUndoesMultiplication(x, y);
    OneComparison(Binary(Div, Binary(Mult, l, r), r), Eq, l, s, Num(Arithmetic(Div, product, y).value), Num(x));
  }

  /** The quotient times the divisor, and the remainder added. */
  function PutTogether(x: Number, y: Number): Number
    requires y.Real() != 0.0
  {
    ArithmeticAnswersExactly(FloorDiv, x, y);
    ArithmeticAnswersExactly(Mod, x, y);
    var q, m := Arithmetic(FloorDiv, x, y).value, Arithmetic(Mod, x, y).value;
    Arithmetic(Add, Arithmetic(Mult, q, y).value, m).value
  }

  lemma PutTogetherIs(x: Number, y: Number)
    requires y.Real() != 0.0
    ensures PutTogether(x, y).Real() == x.Real()
  {
    QuotientAndRemainder(x, y);
    var q, m := Arithmetic(FloorDiv, x, y).value, Arithmetic(Mod, x, y).value;
    ProductIs(q, y);
    SumIs(Arithmetic(Mult, q, y).value, m);
  }

  lemma SumIs(x: Number, y: Number)
    ensures Arithmetic(Add, x, y).value.Real() == x.Real() + y.Real()
  {
  }

  lemma SumGives(l: Node, r: Node, s: Scope, x: Number, y: Number)
    requires Evaluate(l, s) == Val(Num(x)) && Evaluate(r, s) == Val(Num(y)) && y.Real() != 0.0
    ensures var whole := Binary(Mult, Binary(FloorDiv, l, r), r);
            Evaluate(Binary(Add, whole, Binary(Mod, l, r)), s) == Val(Num(PutTogether(x, y)))
  {
    var q, m := Arithmetic(FloorDiv, x, y).value, Arithmetic(Mod, x, y).value;
    BinaryGives(FloorDiv, l, r, s, x, y);
    BinaryGives(Mod, l, r, s, x, y);
    BinaryGives(Mult, Binary(FloorDiv, l, r), r, s, q, y);
    BinaryGives(Add, Binary(Mult, Binary(FloorDiv, l, r), r), Binary(Mod, l, r), s, Arithmetic(Mult, q, y).value, m);
  }

  /** Turning a comparison around turns its operator around, refusals included. */
  lemma ComparisonTurnsAround(a: Node, b: Node, s: Scope)
    requires Evaluate(a, s).Val? && Evaluate(b, s).Val?
    ensures TruthOf(Compare(a, Then(Lt, b, End)), s) == TruthOf(Compare(b, Then(Gt, a, End)), s)
    ensures TruthOf(Compare(a, Then(LtE, b, End)), s) == TruthOf(Compare(b, Then(GtE, a, End)), s)
    ensures TruthOf(Compare(a, Then(Eq, b, End)), s) == TruthOf(Compare(b, Then(Eq, a, End)), s)
  {
    var v, w := Evaluate(a, s).value, Evaluate(b, s).value;
    OneComparison(a, Lt, b, s, v, w);
    OneComparison(b, Gt, a, s, w, v);
    OneComparison(a, LtE, b, s, v, w);
    OneComparison(b, GtE, a, s, w, v);
    OneComparison(a, Eq, b, s, v, w);
    OneComparison(b, Eq, a, s, w, v);
    AnswersTurnAround(v, w);
  }

  lemma AnswersTurnAround(v: Value, w: Value)
    ensures Compared(Lt, v, w) == Compared(Gt, w, v) && Compared(LtE, v, w) == Compared(GtE, w, v)
    ensures Compared(Eq, v, w) == Compared(Eq, w, v)
  {
    if Equal(v, w) {
      EqualSymmetric(v, w);
    }
    if Equal(w, v) {
      EqualSymmetric(w, v);
    }
  }

  /** Negating the test of a choice swaps its branches, whatever the test comes to. */
  lemma ChoiceSwaps(test: Node, body: Node, orelse: Node, s: Scope)
    ensures Evaluate(Choose(Unary(Not, test), body, orelse), s) == Evaluate(Choose(test, orelse, body), s)
  {
    NegatedTruth(test, s);
    ChoiceByTruth(Unary(Not, test), body, orelse, s);
    ChoiceByTruth(test, orelse, body, s);
  }

  lemma NegatedTruth(test: Node, s: Scope)
    ensures TruthOf(Unary(Not, test), s) == (var yes :- TruthOf(test, s); Val(!yes))
  {
  }

  lemma ChoiceByTruth(test: Node, body: Node, orelse: Node, s: Scope)
    ensures Evaluate(Choose(test, body, orelse), s) ==
            (var yes :- TruthOf(test, s); if yes then Evaluate(body, s) else Evaluate(orelse, s))
  {
  }
}
