// Sorting by a key, keeping the order of what the key does not tell apart.
module Sorting {

  ghost predicate TotalPreorder<T(!new)>(atMost: (T, T) -> bool) {
    && (forall x, y :: atMost(x, y) || atMost(y, x))
    && forall x, y, z :: atMost(x, y) && atMost(y, z) ==> atMost(x, z)
  }

  ghost predicate Sorted<T>(xs: seq<T>, atMost: (T, T) -> bool) {
    forall i, j | 0 <= i < j < |xs| :: atMost(xs[i], xs[j])
  }

  function Insert<T>(x: T, xs: seq<T>, atMost: (T, T) -> bool): seq<T> {
    if xs == [] || atMost(x, xs[0]) then [x] + xs else [xs[0]] + Insert(x, xs[1..], atMost)
  }

  function Sort<T>(xs: seq<T>, atMost: (T, T) -> bool): seq<T> {
    if xs == [] then [] else Insert(xs[0], Sort(xs[1..], atMost), atMost)
  }

  lemma SortedFromFirst<T>(x: T, xs: seq<T>, atMost: (T, T) -> bool)
    requires Sorted(xs, atMost) && forall y | y in xs :: atMost(x, y)
    ensures Sorted([x] + xs, atMost)
  {
  }

  lemma FirstIsAtMost<T(!new)>(x: T, xs: seq<T>, atMost: (T, T) -> bool)
    requires TotalPreorder(atMost) && Sorted(xs, atMost) && xs != [] && atMost(x, xs[0])
    ensures forall y | y in xs :: atMost(x, y)
  {
    forall y | y in xs ensures atMost(x, y) {
      var j :| 0 <= j < |xs| && xs[j] == y;
      assert j == 0 || atMost(xs[0], xs[j]);
    }
  }

  lemma {:induction false} InsertSorts<T(!new)>(x: T, xs: seq<T>, atMost: (T, T) -> bool)
    requires TotalPreorder(atMost) && Sorted(xs, atMost)
    ensures Sorted(Insert(x, xs, atMost), atMost)
    ensures multiset(Insert(x, xs, atMost)) == multiset{x} + multiset(xs)
  {
    if xs != [] && !atMost(x, xs[0]) {
      var rest := Insert(x, xs[1..], atMost);
      InsertSorts(x, xs[1..], atMost);
      assert xs == [xs[0]] + xs[1..];
      forall y | y in rest ensures atMost(xs[0], y) {
        assert y in multiset(rest);
        assert y == x || y in xs[1..];
      }
      SortedFromFirst(xs[0], rest, atMost);
    } else if xs != [] {
      FirstIsAtMost(x, xs, atMost);
      SortedFromFirst(x, xs, atMost);
    }
  }

  /** Sorting gives a sorted list of exactly the same things. */
  lemma {:induction false} SortSorts<T(!new)>(xs: seq<T>, atMost: (T, T) -> bool)
    requires TotalPreorder(atMost)
    ensures Sorted(Sort(xs, atMost), atMost)
    ensures multiset(Sort(xs, atMost)) == multiset(xs)
  {
    if xs != [] {
      SortSorts(xs[1..], atMost);
      InsertSorts(xs[0], Sort(xs[1..], atMost), atMost);
      assert xs == [xs[0]] + xs[1..];
    }
  }

  /** Of a list, what the key does not tell from one thing, in its order. */
  ghost function Alike<T>(xs: seq<T>, x: T, atMost: (T, T) -> bool): seq<T> {
    if xs == [] then []
    else (if atMost(xs[0], x) && atMost(x, xs[0]) then [xs[0]] else []) + Alike(xs[1..], x, atMost)
  }

  lemma {:induction false} InsertKeepsOrder<T(!new)>(x: T, xs: seq<T>, e: T, atMost: (T, T) -> bool)
    requires TotalPreorder(atMost)
    ensures Alike(Insert(x, xs, atMost), e, atMost) == Alike([x] + xs, e, atMost)
  {
    assert ([x] + xs)[1..] == xs;
    if xs != [] && !atMost(x, xs[0]) {
      var rest := xs[1..];
      InsertKeepsOrder(x, rest, e, atMost);
      assert ([x] + rest)[1..] == rest;
      assert ([xs[0]] + Insert(x, rest, atMost))[1..] == Insert(x, rest, atMost);
      assert !(atMost(x, e) && atMost(e, xs[0]));
    }
  }

  /** Sorting keeps the order of what the key does not tell apart. */
  lemma {:induction false} SortIsStable<T(!new)>(xs: seq<T>, e: T, atMost: (T, T) -> bool)
    requires TotalPreorder(atMost)
    ensures Alike(Sort(xs, atMost), e, atMost) == Alike(xs, e, atMost)
  {
    if xs != [] {
      SortIsStable(xs[1..], e, atMost);
      InsertKeepsOrder(xs[0], Sort(xs[1..], atMost), e, atMost);
      var rest := Sort(xs[1..], atMost);
      assert ([xs[0]] + rest)[0] == xs[0] && ([xs[0]] + rest)[1..] == rest;
    }
  }

  lemma FirstIsLeast<T(!new)>(xs: seq<T>, x: T, atMost: (T, T) -> bool)
    requires Sorted(xs, atMost) && x in xs && forall y | y in xs :: atMost(y, y)
    ensures atMost(xs[0], x)
  {
    var i :| 0 <= i < |xs| && xs[i] == x;
  }

  lemma TailOf<T>(xs: seq<T>)
    requires xs != []
    ensures multiset(xs[1..]) == multiset(xs) - multiset{xs[0]}
  {
    assert xs == [xs[0]] + xs[1..];
  }

  lemma WithoutOne<T>(xs: seq<T>, i: nat)
    requires i < |xs|
    ensures multiset(xs[..i] + xs[i + 1..]) == multiset(xs) - multiset{xs[i]}
  {
    assert xs == xs[..i] + [xs[i]] + xs[i + 1..];
  }

  /** Where no two different members are level, there is only one sorted list of them. */
  lemma {:induction false} SortedIsUnique<T(!new)>(xs: seq<T>, ys: seq<T>, atMost: (T, T) -> bool)
    requires Sorted(xs, atMost) && Sorted(ys, atMost) && multiset(xs) == multiset(ys)
    requires forall x, y | x in xs && y in xs && atMost(x, y) && atMost(y, x) :: x == y
    requires forall x | x in xs :: atMost(x, x)
    ensures xs == ys
  {
    assert |multiset(xs)| == |xs| && |multiset(ys)| == |ys|;
    if xs != [] {
      SameFirst(xs, ys, atMost);
      TailOf(xs);
      TailOf(ys);
      assert xs == [xs[0]] + xs[1..] && ys == [ys[0]] + ys[1..];
      SortedIsUnique(xs[1..], ys[1..], atMost);
    }
  }

  lemma SameFirst<T(!new)>(xs: seq<T>, ys: seq<T>, atMost: (T, T) -> bool)
    requires xs != [] && ys != [] && Sorted(xs, atMost) && Sorted(ys, atMost) && multiset(xs) == multiset(ys)
    requires forall x, y | x in xs && y in xs && atMost(x, y) && atMost(y, x) :: x == y
    requires forall x | x in xs :: atMost(x, x)
    ensures xs[0] == ys[0]
  {
    forall y ensures y in ys <==> y in xs {
      assert y in ys <==> y in multiset(ys);
    }
    FirstIsLeast(xs, ys[0], atMost);
    FirstIsLeast(ys, xs[0], atMost);
  }
}
