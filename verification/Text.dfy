// Text ordered the way Python orders it: character by character, a prefix first.
module Text {

  predicate Before(a: string, b: string) {
    if b == [] then false
    else if a == [] then true
    else a[0] < b[0] || (a[0] == b[0] && Before(a[1..], b[1..]))
  }

  predicate AtMost(a: string, b: string) {
    a == b || Before(a, b)
  }

  lemma {:induction false} BeforeIrreflexive(a: string)
    ensures !Before(a, a)
  {
    if a != [] {
      BeforeIrreflexive(a[1..]);
    }
  }

  lemma {:induction false} BeforeTransitive(a: string, b: string, c: string)
    requires Before(a, b) && Before(b, c)
    ensures Before(a, c)
  {
    if a != [] && a[0] == b[0] && b[0] == c[0] {
      BeforeTransitive(a[1..], b[1..], c[1..]);
    }
  }

  lemma {:induction false} BeforeTotal(a: string, b: string)
    ensures a == b || Before(a, b) || Before(b, a)
  {
    if a != [] && b != [] && a[0] == b[0] {
      BeforeTotal(a[1..], b[1..]);
      assert a == [a[0]] + a[1..] && b == [b[0]] + b[1..];
    }
  }

  lemma {:induction false} BeforeAsymmetric(a: string, b: string)
    requires Before(a, b)
    ensures !Before(b, a) && a != b
  {
    if Before(b, a) {
      BeforeTransitive(a, b, a);
    }
    BeforeIrreflexive(a);
  }

  /** The first place they differ in decides, and where there is none the shorter is first. */
  predicate Precedes(a: string, b: string) {
    exists k | 0 <= k <= |a| && k < |b| :: PrecedesAt(a, b, k)
  }

  predicate PrecedesAt(a: string, b: string, k: nat)
    requires k <= |a| && k < |b|
  {
    a[..k] == b[..k] && (k < |a| ==> a[k] < b[k])
  }

  lemma {:induction false} BeforeExactly(a: string, b: string)
    ensures Before(a, b) <==> Precedes(a, b)
  {
    if b == [] || a == [] {
      assert b != [] ==> PrecedesAt(a, b, 0);
    } else {
      var x, y := a[1..], b[1..];
      BeforeExactly(x, y);
      if a[0] < b[0] {
        assert PrecedesAt(a, b, 0);
      } else if a[0] == b[0] && Precedes(x, y) {
        var k: nat :| k <= |x| && k < |y| && PrecedesAt(x, y, k);
        assert a[..k + 1] == [a[0]] + x[..k] && b[..k + 1] == [b[0]] + y[..k];
        assert PrecedesAt(a, b, k + 1);
      } else if Precedes(a, b) {
        var k: nat :| k <= |a| && k < |b| && PrecedesAt(a, b, k);
        assert k > 0 ==> a[..k][0] == b[..k][0];
        assert k > 0 ==> x[..k - 1] == a[..k][1..] && y[..k - 1] == b[..k][1..];
        assert k > 0 ==> PrecedesAt(x, y, k - 1);
      }
    }
  }

  predicate IsLeast(x: string, names: set<string>) {
    x in names && forall y | y in names :: AtMost(x, y)
  }

  lemma {:induction false} LeastExists(names: set<string>)
    requires names != {}
    ensures exists x :: IsLeast(x, names)
  {
    var a :| a in names;
    if names == {a} {
      assert IsLeast(a, names);
    } else {
      var rest := names - {a};
      assert names == rest + {a};
      LeastExists(rest);
      var b :| IsLeast(b, rest);
      BeforeTotal(a, b);
      if Before(a, b) {
        forall y | y in names ensures AtMost(a, y) {
          if y != a && y != b { assert y in rest && AtMost(b, y); BeforeTransitive(a, b, y); }
        }
        assert IsLeast(a, names);
      } else {
        assert IsLeast(b, names);
      }
    }
  }

  lemma LeastUnique(x: string, y: string, names: set<string>)
    requires IsLeast(x, names) && IsLeast(y, names)
    ensures x == y
  {
    if x != y {
      BeforeAsymmetric(x, y);
    }
  }

  /** The first of the names in order, which is what sorting them and taking the head gives. */
  function Least(names: set<string>): (x: string)
    requires names != {}
    ensures IsLeast(x, names)
  {
    LeastExists(names);
    assert forall x, y | IsLeast(x, names) && IsLeast(y, names) :: x == y by {
      forall x, y | IsLeast(x, names) && IsLeast(y, names) ensures x == y { LeastUnique(x, y, names); }
    }
    var x :| x in names && IsLeast(x, names);
    x
  }

  /** Whether `part` occurs somewhere in `whole`. */
  predicate Contains(whole: string, part: string) {
    |part| <= |whole| && (part <= whole || Contains(whole[1..], part))
  }

  predicate OccursAt(whole: string, part: string, k: int) {
    0 <= k <= |whole| - |part| && whole[k..k + |part|] == part
  }

  lemma {:induction false} ContainsExactly(whole: string, part: string)
    ensures Contains(whole, part) <==> exists k :: OccursAt(whole, part, k)
  {
    if |part| <= |whole| {
      if part <= whole {
        assert OccursAt(whole, part, 0);
      } else {
        var rest := whole[1..];
        ContainsExactly(rest, part);
        forall k ensures OccursAt(rest, part, k) ==> OccursAt(whole, part, k + 1) {
        }
        forall k ensures OccursAt(whole, part, k) ==> OccursAt(rest, part, k - 1) {
        }
        assert forall k :: OccursAt(whole, part, k) ==> OccursAt(rest, part, k - 1);
      }
    }
  }

  /** What counts as blank around a quantity and around a line. */
  predicate IsSpace(c: char) {
    c == ' ' || '\t' <= c <= '\r' || '\U{1C}' <= c <= '\U{1F}'
  }

  /** Nothing but blanks: spaces and the two runs of control characters that count as such. */
  predicate Blank(s: string) {
    forall c | c in s :: c == ' ' || 9 <= c as int <= 13 || 28 <= c as int <= 31
  }

  lemma BlanksAreSpaces(s: string)
    ensures Blank(s) <==> forall c | c in s :: IsSpace(c)
  {
  }

  lemma BlanksComeOff(s: string) returns (blanks: string)
    ensures Blank(blanks) && s == blanks + AfterSpaces(s)
    ensures AfterSpaces(s) != [] ==> !IsSpace(AfterSpaces(s)[0])
  {
    SpanIsAmong(s, IsSpace);
    SpanIsLongest(s, IsSpace);
    blanks := s[..Span(s, IsSpace)];
    BlanksAreSpaces(blanks);
  }

  lemma {:induction false} SpanIsLongest(s: string, among: char -> bool)
    ensures Span(s, among) < |s| ==> !among(s[Span(s, among)])
  {
    if s != [] && among(s[0]) {
      SpanIsLongest(s[1..], among);
    }
  }

  /** How far the class of characters reaches from the start of the text. */
  function Span(s: string, among: char -> bool): (n: nat)
    ensures n <= |s|
  {
    if s == [] || !among(s[0]) then 0 else 1 + Span(s[1..], among)
  }

  lemma {:induction false} SpanStops(a: string, b: string, among: char -> bool)
    requires forall c | c in a :: among(c)
    requires b == [] || !among(b[0])
    ensures Span(a + b, among) == |a|
    ensures (a + b)[..|a|] == a && (a + b)[|a|..] == b
  {
    if a != [] {
      SpanStops(a[1..], b, among);
      assert (a + b)[1..] == a[1..] + b;
    }
  }

  function AfterSpaces(s: string): string {
    s[Span(s, IsSpace)..]
  }

  lemma {:induction false} SpanIsAmong(s: string, among: char -> bool)
    ensures forall c | c in s[..Span(s, among)] :: among(c)
  {
    if s != [] && among(s[0]) {
      SpanIsAmong(s[1..], among);
      assert s[..Span(s, among)] == [s[0]] + s[1..][..Span(s[1..], among)];
    }
  }
}
