// The plain values an expression can hold, and how a vocabulary gains information.
module Values {

  /** A whole number or a fraction: the two numeric types, computed exactly. */
  datatype Number = Whole(i: int) | Frac(r: real) {

    function Real(): real {
      match this
      case Whole(i) => i as real
      case Frac(r) => r
    }
  }

  lemma FloorIsNearest(r: real)
    ensures r.Floor as real <= r < r.Floor as real + 1.0
  {
  }

  /** `Tuple` is what a list literal in an expression evaluates to; `List` is a list inside
      a document. `Unreported` is the marker for a fact nobody collected. */
  datatype Value =
    | Nothing
    | Bool(b: bool)
    | Num(n: Number)
    | Text(s: string)
    | Tuple(items: seq<Value>)
    | List(items: seq<Value>)
    | Group(members: map<string, Value>)
    | Unreported

  type Scope = map<string, Value>

  /** Python counts a yes or a no as a number when it compares for equality. */
  predicate Numeric(v: Value) {
    v.Bool? || v.Num?
  }

  function AsReal(v: Value): real
    requires Numeric(v)
  {
    match v
    case Bool(b) => if b then 1.0 else 0.0
    case Num(n) => n.Real()
  }

  /** `==` between two plain values. */
  predicate Equal(a: Value, b: Value)
    decreases a
  {
    match a
    case Nothing => b.Nothing?
    case Unreported => b.Unreported?
    case Text(s) => b.Text? && s == b.s
    case Tuple(xs) => b.Tuple? && |xs| == |b.items| && forall i | 0 <= i < |xs| :: Equal(xs[i], b.items[i])
    case List(xs) => b.List? && |xs| == |b.items| && forall i | 0 <= i < |xs| :: Equal(xs[i], b.items[i])
    case Group(m) => b.Group? && m.Keys == b.members.Keys && forall k | k in m :: Equal(m[k], b.members[k])
    case _ => Numeric(b) && AsReal(a) == AsReal(b)
  }

  /** `w` is `v` with some unreported leaves replaced by values. The shape never changes. */
  predicate Refines(v: Value, w: Value)
    decreases v
  {
    match v
    case Unreported => true
    case Tuple(xs) => w.Tuple? && |xs| == |w.items| && forall i | 0 <= i < |xs| :: Refines(xs[i], w.items[i])
    case Group(m) => w.Group? && m.Keys == w.members.Keys && forall k | k in m :: Refines(m[k], w.members[k])
    case _ => v == w
  }

  ghost predicate ScopeRefines(s: Scope, t: Scope) {
    s.Keys == t.Keys && forall k | k in s :: Refines(s[k], t[k])
  }

  /** There is no unreported leaf anywhere in the value. */
  predicate Reported(v: Value)
    decreases v
  {
    match v
    case Unreported => false
    case Tuple(xs) => forall i | 0 <= i < |xs| :: Reported(xs[i])
    case Group(m) => forall k | k in m :: Reported(m[k])
    case _ => true
  }

  lemma {:induction false} ReportedIsFinal(v: Value, w: Value)
    requires Reported(v) && Refines(v, w)
    ensures v == w
    decreases v
  {
    match v
    case Tuple(xs) =>
      forall i | 0 <= i < |xs| ensures xs[i] == w.items[i] { ReportedIsFinal(xs[i], w.items[i]); }
      assert xs == w.items;
    case Group(m) =>
      forall k | k in m ensures m[k] == w.members[k] { ReportedIsFinal(m[k], w.members[k]); }
      assert m == w.members;
    case _ =>
  }

  lemma {:induction false} RefinesReflexive(v: Value)
    ensures Refines(v, v)
    decreases v
  {
    match v
    case Tuple(xs) => forall i | 0 <= i < |xs| ensures Refines(xs[i], xs[i]) { RefinesReflexive(xs[i]); }
    case Group(m) => forall k | k in m ensures Refines(m[k], m[k]) { RefinesReflexive(m[k]); }
    case _ =>
  }

  lemma {:induction false} RefinesTransitive(u: Value, v: Value, w: Value)
    requires Refines(u, v) && Refines(v, w)
    ensures Refines(u, w)
    decreases u
  {
    match u
    case Tuple(xs) =>
      forall i | 0 <= i < |xs| ensures Refines(xs[i], w.items[i]) { RefinesTransitive(xs[i], v.items[i], w.items[i]); }
    case Group(m) =>
      forall k | k in m ensures Refines(m[k], w.members[k]) { RefinesTransitive(m[k], v.members[k], w.members[k]); }
    case _ =>
  }

  lemma {:induction false} EqualReflexive(a: Value)
    ensures Equal(a, a)
    decreases a
  {
    match a
    case Tuple(xs) => forall i | 0 <= i < |xs| ensures Equal(xs[i], xs[i]) { EqualReflexive(xs[i]); }
    case List(xs) => forall i | 0 <= i < |xs| ensures Equal(xs[i], xs[i]) { EqualReflexive(xs[i]); }
    case Group(m) => forall k | k in m ensures Equal(m[k], m[k]) { EqualReflexive(m[k]); }
    case _ =>
  }

  lemma {:induction false} EqualSymmetric(a: Value, b: Value)
    requires Equal(a, b)
    ensures Equal(b, a)
    decreases a
  {
    match a
    case Tuple(xs) => forall i | 0 <= i < |xs| ensures Equal(b.items[i], xs[i]) { EqualSymmetric(xs[i], b.items[i]); }
    case List(xs) => forall i | 0 <= i < |xs| ensures Equal(b.items[i], xs[i]) { EqualSymmetric(xs[i], b.items[i]); }
    case Group(m) => forall k | k in m ensures Equal(b.members[k], m[k]) { EqualSymmetric(m[k], b.members[k]); }
    case _ =>
  }

  lemma {:induction false} EqualTransitive(a: Value, b: Value, c: Value)
    requires Equal(a, b) && Equal(b, c)
    ensures Equal(a, c)
    decreases a
  {
    match a
    case Tuple(xs) =>
      forall i | 0 <= i < |xs| ensures Equal(xs[i], c.items[i]) { EqualTransitive(xs[i], b.items[i], c.items[i]); }
    case List(xs) =>
      forall i | 0 <= i < |xs| ensures Equal(xs[i], c.items[i]) { EqualTransitive(xs[i], b.items[i], c.items[i]); }
    case Group(m) =>
      forall k | k in m ensures Equal(m[k], c.members[k]) { EqualTransitive(m[k], b.members[k], c.members[k]); }
    case _ =>
  }
}
