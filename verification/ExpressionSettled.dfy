// Exactly when a comparison keeps its answer whatever is still to be reported about its two
// operands.
module ExpressionSettled {
  import opened Values
  import opened Expressions

  // ----------------------------------------------------------------- could still be equal

  /** Whether filling in what is unreported could make the two values equal. */
  predicate MayMeet(v: Value, w: Value)
    decreases v
  {
    if v.Unreported? || w.Unreported? then true
    else
      match v
      case Tuple(xs) => w.Tuple? && |xs| == |w.items| && forall i | 0 <= i < |xs| :: MayMeet(xs[i], w.items[i])
      case Group(m) => w.Group? && m.Keys == w.members.Keys && forall k | k in m :: MayMeet(m[k], w.members[k])
      case _ => Equal(v, w)
  }

  /** The value with each hole filled from the other value's same place. */
  function Toward(v: Value, w: Value): Value
    decreases v
  {
    match v
    case Unreported => w
    case Tuple(xs) =>
      if w.Tuple? && |xs| == |w.items| then
        Tuple(seq(|xs|, i requires 0 <= i < |xs| => Toward(xs[i], w.items[i])))
      else v
    case Group(m) =>
      if w.Group? && m.Keys == w.members.Keys then Group(map k | k in m :: Toward(m[k], w.members[k])) else v
    case _ => v
  }

  lemma {:induction false} TowardRefines(v: Value, w: Value)
    ensures Refines(v, Toward(v, w))
    decreases v
  {
    RefinesReflexive(v);
    match v
    case Tuple(xs) =>
      if w.Tuple? && |xs| == |w.items| {
        forall i | 0 <= i < |xs| ensures Refines(xs[i], Toward(xs[i], w.items[i])) { TowardRefines(xs[i], w.items[i]); }
      }
    case Group(m) =>
      if w.Group? && m.Keys == w.members.Keys {
        forall k | k in m ensures Refines(m[k], Toward(m[k], w.members[k])) { TowardRefines(m[k], w.members[k]); }
      }
    case _ =>
  }

  lemma {:induction false} TowardMeets(v: Value, w: Value)
    requires MayMeet(v, w)
    ensures Equal(Toward(v, w), Toward(w, v))
    decreases v
  {
    if v.Unreported? || w.Unreported? {
      EqualReflexive(v);
      EqualReflexive(w);
    } else {
      match v
      case Tuple(xs) =>
        forall i | 0 <= i < |xs| ensures Equal(Toward(xs[i], w.items[i]), Toward(w.items[i], xs[i])) {
          TowardMeets(xs[i], w.items[i]);
        }
      case Group(m) =>
        forall k | k in m ensures Equal(Toward(m[k], w.members[k]), Toward(w.members[k], m[k])) {
          TowardMeets(m[k], w.members[k]);
        }
      case _ =>
    }
  }

  lemma {:induction false} EqualMayMeet(v: Value, w: Value, v': Value, w': Value)
    requires Refines(v, v') && Refines(w, w') && Equal(v', w')
    ensures MayMeet(v, w)
    decreases v
  {
    if !v.Unreported? && !w.Unreported? {
      match v
      case Tuple(xs) =>
        forall i | 0 <= i < |xs| ensures MayMeet(xs[i], w.items[i]) {
          EqualMayMeet(xs[i], w.items[i], v'.items[i], w'.items[i]);
        }
      case Group(m) =>
        forall k | k in m ensures MayMeet(m[k], w.members[k]) {
          EqualMayMeet(m[k], w.members[k], v'.members[k], w'.members[k]);
        }
      case _ =>
    }
  }

  // ------------------------------------------------------------------- could still differ

  /** The value with every hole filled with one and the same thing. */
  function Filled(v: Value, f: Value): Value
    decreases v
  {
    match v
    case Unreported => f
    case Tuple(xs) => Tuple(seq(|xs|, i requires 0 <= i < |xs| => Filled(xs[i], f)))
    case Group(m) => Group(map k | k in m :: Filled(m[k], f))
    case _ => v
  }

  lemma {:induction false} FilledRefines(v: Value, f: Value)
    ensures Refines(v, Filled(v, f))
    decreases v
  {
    match v
    case Tuple(xs) => forall i | 0 <= i < |xs| ensures Refines(xs[i], Filled(xs[i], f)) { FilledRefines(xs[i], f); }
    case Group(m) => forall k | k in m ensures Refines(m[k], Filled(m[k], f)) { FilledRefines(m[k], f); }
    case _ =>
  }

  /** A value with a hole in it, filled with two different things, comes out different. */
  lemma {:induction false} FilledApart(v: Value, f: Value, g: Value)
    requires !Reported(v) && Equal(Filled(v, f), Filled(v, g))
    ensures Equal(f, g)
    decreases v
  {
    match v
    case Unreported =>
    case Tuple(xs) =>
      var i :| 0 <= i < |xs| && !Reported(xs[i]);
      assert Equal(Filled(v, f).items[i], Filled(v, g).items[i]);
      FilledApart(xs[i], f, g);
    case Group(m) =>
      var k :| k in m && !Reported(m[k]);
      assert Equal(Filled(v, f).members[k], Filled(v, g).members[k]);
      FilledApart(m[k], f, g);
    case _ =>
  }

  function Numbered(n: int): Value {
    Num(Whole(n))
  }

  /** Far enough on, no number in its holes makes the value equal to any of these. */
  lemma {:induction false} FreshFilling(v: Value, items: seq<Value>) returns (bound: int)
    requires !Reported(v)
    ensures forall n, i | n >= bound && 0 <= i < |items| :: !Equal(Filled(v, Numbered(n)), items[i])
  {
    if items == [] {
      bound := 0;
    } else {
      var rest := FreshFilling(v, items[1..]);
      if exists n :: Equal(Filled(v, Numbered(n)), items[0]) {
        var n :| Equal(Filled(v, Numbered(n)), items[0]);
        bound := if rest > n then rest else n + 1;
        forall m | m >= bound ensures !Equal(Filled(v, Numbered(m)), items[0]) {
          if Equal(Filled(v, Numbered(m)), items[0]) {
            EqualSymmetric(Filled(v, Numbered(m)), items[0]);
            EqualTransitive(Filled(v, Numbered(n)), items[0], Filled(v, Numbered(m)));
            FilledApart(v, Numbered(n), Numbered(m));
          }
        }
      } else {
        bound := rest;
      }
      forall n, i | n >= bound && 0 <= i < |items| ensures !Equal(Filled(v, Numbered(n)), items[i]) {
        assert i > 0 ==> items[i] == items[1..][i - 1];
      }
    }
  }

  // -------------------------------------------------------------------------- the answers

  /** Equality of the two is settled: they are equal with nothing left to report, or nothing
      left to report could make them so. */
  predicate Settled(v: Value, w: Value) {
    (Equal(v, w) && Reported(v) && Reported(w)) || !MayMeet(v, w)
  }

  /** Whether `v` is in the list is settled: it is one of the items for good, or could
      become none of them. */
  predicate MembershipSettled(v: Value, items: seq<Value>) {
    || (exists i | 0 <= i < |items| :: Equal(v, items[i]) && Reported(v) && Reported(items[i]))
    || (forall i | 0 <= i < |items| :: !MayMeet(v, items[i]))
  }

  predicate AnswerSettled(op: Comparison, v: Value, w: Value) {
    match op
    case Eq => Settled(v, w)
    case NotEq => Settled(v, w)
    case In => w.Tuple? ==> MembershipSettled(v, w.items)
    case NotIn => w.Tuple? ==> MembershipSettled(v, w.items)
    case Is => Reported(v) && Reported(w)
    case IsNot => Reported(v) && Reported(w)
    case _ => true
  }

  /** The comparison comes to the same however its operands are filled in. */
  ghost predicate KeepsAnswer(op: Comparison, v: Value, w: Value) {
    forall v', w' | Refines(v, v') && Refines(w, w') :: Compared(op, v', w') == Compared(op, v, w)
  }

  lemma NothingMetIsUnequal(v: Value, w: Value)
    requires Equal(v, w)
    ensures MayMeet(v, w)
  {
    RefinesReflexive(v);
    RefinesReflexive(w);
    EqualMayMeet(v, w, v, w);
  }

  lemma SettledKeeps(v: Value, w: Value, v': Value, w': Value)
    requires Settled(v, w) && Refines(v, v') && Refines(w, w')
    ensures Equal(v', w') <==> Equal(v, w)
  {
    if MayMeet(v, w) {
      ReportedIsFinal(v, v');
      ReportedIsFinal(w, w');
    } else {
      if Equal(v', w') {
        EqualMayMeet(v, w, v', w');
      }
      if Equal(v, w) {
        NothingMetIsUnequal(v, w);
      }
    }
  }

  /** Equal values have their holes in the same places. */
  lemma {:induction false} EqualSharesHoles(v: Value, w: Value)
    requires Equal(v, w)
    ensures Reported(v) <==> Reported(w)
    decreases v
  {
    match v
    case Tuple(xs) =>
      forall i | 0 <= i < |xs| ensures Reported(xs[i]) <==> Reported(w.items[i]) {
        EqualSharesHoles(xs[i], w.items[i]);
      }
    case Group(m) =>
      forall k | k in m ensures Reported(m[k]) <==> Reported(w.members[k]) {
        EqualSharesHoles(m[k], w.members[k]);
      }
    case _ =>
  }

  /** Where equality is not settled, there is a way to fill in the operands that flips it. */
  lemma UnsettledFlips(v: Value, w: Value) returns (v': Value, w': Value)
    requires !Settled(v, w)
    ensures Refines(v, v') && Refines(w, w') && (Equal(v', w') <==> !Equal(v, w))
  {
    RefinesReflexive(v);
    RefinesReflexive(w);
    if !Equal(v, w) {
      TowardRefines(v, w);
      TowardRefines(w, v);
      TowardMeets(v, w);
      v', w' := Toward(v, w), Toward(w, v);
    } else {
      EqualSharesHoles(v, w);
      var n := FreshFilling(v, [w]);
      FilledRefines(v, Numbered(n));
      assert !Equal(Filled(v, Numbered(n)), [w][0]);
      v', w' := Filled(v, Numbered(n)), w;
    }
  }

  // --------------------------------------------------------------------------- membership

  predicate Inside(v: Value, items: seq<Value>) {
    exists i | 0 <= i < |items| :: Equal(v, items[i])
  }

  lemma MembershipKeeps(v: Value, items: seq<Value>, v': Value, items': seq<Value>)
    requires MembershipSettled(v, items) && Refines(v, v') && Refines(Tuple(items), Tuple(items'))
    ensures Inside(v', items') <==> Inside(v, items)
  {
    if forall i | 0 <= i < |items| :: !MayMeet(v, items[i]) {
      forall i | 0 <= i < |items| ensures !Equal(v, items[i]) && !Equal(v', items'[i]) {
        SettledKeeps(v, items[i], v', items'[i]);
        if Equal(v, items[i]) {
          NothingMetIsUnequal(v, items[i]);
        }
      }
    } else {
      var i :| 0 <= i < |items| && Equal(v, items[i]) && Reported(v) && Reported(items[i]);
      SettledKeeps(v, items[i], v', items'[i]);
    }
  }

  lemma MembershipFlips(v: Value, items: seq<Value>) returns (v': Value, items': seq<Value>)
    requires !MembershipSettled(v, items)
    ensures Refines(v, v') && Refines(Tuple(items), Tuple(items')) && (Inside(v', items') <==> !Inside(v, items))
  {
    RefinesReflexive(v);
    RefinesReflexive(Tuple(items));
    if !Inside(v, items) {
      var i :| 0 <= i < |items| && MayMeet(v, items[i]);
      TowardRefines(v, items[i]);
      TowardRefines(items[i], v);
      TowardMeets(v, items[i]);
      v', items' := Toward(v, items[i]), items[i := Toward(items[i], v)];
      assert Equal(v', items'[i]);
    } else {
      var i :| 0 <= i < |items| && Equal(v, items[i]);
      EqualSharesHoles(v, items[i]);
      var n := FreshFilling(v, items);
      FilledRefines(v, Numbered(n));
      v', items' := Filled(v, Numbered(n)), items;
    }
  }

  // -------------------------------------------------------------------------- comparisons

  lemma SettledKeepsAnswer(op: Comparison, v: Value, w: Value, v': Value, w': Value)
    requires !v.Unreported? && !w.Unreported?
    requires AnswerSettled(op, v, w) && Refines(v, v') && Refines(w, w')
    ensures Compared(op, v', w') == Compared(op, v, w)
  {
    match op
    case Eq => SettledKeeps(v, w, v', w');
    case NotEq => SettledKeeps(v, w, v', w');
    case In => ContainedKeeps(v, w, v', w');
    case NotIn => ContainedKeeps(v, w, v', w');
    case Is => ReportedIsFinal(v, v'); ReportedIsFinal(w, w');
    case IsNot => ReportedIsFinal(v, v'); ReportedIsFinal(w, w');
    case _ => OrderKeeps(op, v, w, v', w');
  }

  lemma ContainedKeeps(v: Value, w: Value, v': Value, w': Value)
    requires !v.Unreported? && !w.Unreported? && Refines(v, v') && Refines(w, w')
    requires w.Tuple? ==> MembershipSettled(v, w.items)
    ensures Contained(v', w') == Contained(v, w)
  {
    if w.Tuple? {
      MembershipKeeps(v, w.items, v', w'.items);
    }
  }

  /** An order is only ever asked of values that have no holes. */
  lemma OrderKeeps(op: Comparison, v: Value, w: Value, v': Value, w': Value)
    requires op.Lt? || op.LtE? || op.Gt? || op.GtE?
    requires !v.Unreported? && !w.Unreported? && Refines(v, v') && Refines(w, w')
    ensures Compared(op, v', w') == Compared(op, v, w)
  {
    SameOrHeld(v, v');
    SameOrHeld(w, w');
  }

  lemma SameOrHeld(v: Value, v': Value)
    requires !v.Unreported? && Refines(v, v')
    ensures v' == v || (v.Tuple? && v'.Tuple?) || (v.Group? && v'.Group?)
  {
  }

  /** Two values with nothing left to report are settled, whatever is asked of them. */
  lemma ReportedIsSettled(op: Comparison, v: Value, w: Value)
    requires Reported(v) && Reported(w)
    ensures AnswerSettled(op, v, w)
  {
    ReportedPairIsSettled(v, w);
    if w.Tuple? {
      forall i | 0 <= i < |w.items| ensures Settled(v, w.items[i]) {
        ReportedPairIsSettled(v, w.items[i]);
      }
    }
  }

  lemma ReportedPairIsSettled(v: Value, w: Value)
    requires Reported(v) && Reported(w)
    ensures Settled(v, w)
  {
    if MayMeet(v, w) {
      TowardMeets(v, w);
      TowardRefines(v, w);
      TowardRefines(w, v);
      ReportedIsFinal(v, Toward(v, w));
      ReportedIsFinal(w, Toward(w, v));
    }
  }

  lemma UnsettledChangesAnswer(op: Comparison, v: Value, w: Value) returns (v': Value, w': Value)
    requires !op.Is? && !op.IsNot? && !AnswerSettled(op, v, w)
    ensures Refines(v, v') && Refines(w, w') && Compared(op, v', w') != Compared(op, v, w)
  {
    match op
    case Eq => v', w' := UnsettledFlips(v, w);
    case NotEq => v', w' := UnsettledFlips(v, w);
    case In =>
      var items;
      v', items := MembershipFlips(v, w.items);
      w' := Tuple(items);
    case NotIn =>
      var items;
      v', items := MembershipFlips(v, w.items);
      w' := Tuple(items);
    case _ => v', w' := v, w;
  }

  /** A comparison of two values comes to the same however what is unreported in them is
      filled in, exactly when its answer is settled. */
  lemma KeepsAnswerExactly(op: Comparison, v: Value, w: Value)
    requires !op.Is? && !op.IsNot? && !v.Unreported? && !w.Unreported?
    ensures KeepsAnswer(op, v, w) <==> AnswerSettled(op, v, w)
  {
    if AnswerSettled(op, v, w) {
      forall v', w' | Refines(v, v') && Refines(w, w') ensures Compared(op, v', w') == Compared(op, v, w) {
        SettledKeepsAnswer(op, v, w, v', w');
      }
    } else {
      var v', w' := UnsettledChangesAnswer(op, v, w);
    }
  }
}
