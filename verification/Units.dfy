// Quantities of bytes and of milliseconds: read from text, written back to text.
// A number written with a decimal point is kept exact, as a count over a power of ten.
module Units {
  import opened Wrappers
  import Text

  type Size = n: nat | n > 0 witness 1

  datatype UnitError = NotAQuantity | UnknownUnit | Negative

  const BYTE_UNITS: map<string, Size> := map[
    "B" := 1,
    "KB" := 1000, "MB" := 1_000_000, "GB" := 1_000_000_000,
    "TB" := 1_000_000_000_000, "PB" := 1_000_000_000_000_000,
    "KiB" := 0x400, "MiB" := 0x10_0000, "GiB" := 0x4000_0000,
    "TiB" := 0x100_0000_0000, "PiB" := 0x4_0000_0000_0000]

  const DURATIONS: map<string, Size> := map["ms" := 1, "s" := 1000]

  /** The units a rendering may use, in descending order. */
  const RENDER_ORDER: seq<(string, Size)> := [
    ("PiB", 0x4_0000_0000_0000), ("TiB", 0x100_0000_0000), ("GiB", 0x4000_0000),
    ("MiB", 0x10_0000), ("KiB", 0x400)]

  // ---------------------------------------------------------------------- arithmetic

  function Times(a: nat, b: nat): nat {
    a * b
  }

  /** `a / b` rounded to the nearest whole number, a tie going to the even one. */
  function RoundedQuotient(a: nat, b: nat): nat
    requires b > 0
  {
    var q, r := a / b, a % b;
    if 2 * r < b || (2 * r == b && q % 2 == 0) then q else q + 1
  }

  lemma RoundedQuotientIsNearest(a: nat, b: nat)
    requires b > 0
    ensures -(b as int) <= 2 * (RoundedQuotient(a, b) * b - a) <= b
  {
    var q, r := a / b, a % b;
    assert a == q * b + r;
    assert (q + 1) * b == q * b + b;
  }

  lemma RoundedQuotientIsExact(k: nat, b: nat)
    requires b > 0
    ensures RoundedQuotient(k * b, b) == k
  {
    RoundedQuotientIsNearest(k * b, b);
    var d := RoundedQuotient(k * b, b) - k;
    assert d * b == RoundedQuotient(k * b, b) * b - k * b;
    if d >= 1 {
      AtLeastOnce(d, b);
    } else if d <= -1 {
      AtLeastOnce(-d, b);
    }
  }

  lemma AtLeastOnce(d: int, b: nat)
    requires d >= 1
    ensures d * b >= b
    ensures (-d) * b <= -(b as int)
  {
  }

  function PowerOfTen(k: nat): (p: nat)
    ensures p > 0
  {
    if k == 0 then 1 else 10 * PowerOfTen(k - 1)
  }

  // ------------------------------------------------------------------------- lexing

  predicate IsDigit(c: char) {
    '0' <= c <= '9'
  }

  predicate IsLetter(c: char) {
    'A' <= c <= 'Z' || 'a' <= c <= 'z'
  }

  /** A quantity as it was written: the digits with the decimal point taken out, how many
      of them came after it, and the unit, empty where none was written. */
  datatype Quantity = Quantity(digits: string, places: nat, unit: string)

  /** The digits after a decimal point, if there is one, and what follows them. A point
      with no digit after it matches nothing. */
  function MatchFraction(rest: string): Option<(string, string)> {
    if rest == [] || rest[0] != '.' then Some(([], rest))
    else
      var m := Text.Span(rest[1..], IsDigit);
      if m == 0 then None else Some((rest[1..][..m], rest[1..][m..]))
  }

  /** Spaces, letters, spaces and the end. */
  function MatchUnit(rest: string): Option<string> {
    var tail := Text.AfterSpaces(rest);
    var k := Text.Span(tail, IsLetter);
    if Text.AfterSpaces(tail[k..]) == [] then Some(tail[..k]) else None
  }

  /** Digits, optionally a point and more digits, optionally a unit, and spaces between. */
  function Match(text: string): Option<Quantity> {
    var start := Text.AfterSpaces(text);
    var n := Text.Span(start, IsDigit);
    if n == 0 then None
    else
      match MatchFraction(start[n..])
      case None => None
      case Some((fraction, rest)) =>
        match MatchUnit(rest)
        case None => None
        case Some(unit) => Some(Quantity(start[..n] + fraction, |fraction|, unit))
  }

  function DigitValue(c: char): nat
    requires IsDigit(c)
  {
    c as nat - '0' as nat
  }

  function ParseDigits(s: string): nat
    requires forall c | c in s :: IsDigit(c)
  {
    if s == [] then 0 else 10 * ParseDigits(s[..|s| - 1]) + DigitValue(s[|s| - 1])
  }

  lemma MatchedDigitsAreDigits(text: string)
    ensures Match(text).Some? ==> forall c | c in Match(text).value.digits :: IsDigit(c)
  {
    var start := Text.AfterSpaces(text);
    Text.SpanIsAmong(start, IsDigit);
    var rest := start[Text.Span(start, IsDigit)..];
    if rest != [] {
      Text.SpanIsAmong(rest[1..], IsDigit);
    }
  }

  // ------------------------------------------------------------------------- parsing

  /** The written number times the size of its unit, rounded to a whole count. */
  function Scaled(text: string, size: nat): nat
    requires Match(text).Some?
  {
    MatchedDigitsAreDigits(text);
    var q := Match(text).value;
    RoundedQuotient(Times(ParseDigits(q.digits), size), PowerOfTen(q.places))
  }

  /** A quantity in one of the units listed; the one assumed where none is written, if any. */
  function ParseIn(units: map<string, Size>, assumed: Option<string>, text: string): Result<nat, UnitError> {
    match Match(text)
    case None => Err(NotAQuantity)
    case Some(q) =>
      if q.unit == [] && assumed.None? then Err(NotAQuantity)
      else
        var unit := if q.unit == [] then assumed.value else q.unit;
        if unit in units then Ok(Scaled(text, units[unit])) else Err(UnknownUnit)
  }

  function ParseBytes(text: string): Result<nat, UnitError> {
    ParseIn(BYTE_UNITS, Some("B"), text)
  }

  function ParseMilliseconds(text: string): Result<nat, UnitError> {
    ParseIn(DURATIONS, None, text)
  }

  // ----------------------------------------------------------------------- rendering

  function Digit(d: nat): char
    requires d < 10
  {
    '0' + d as char
  }

  function DigitsOf(n: nat): string {
    if n < 10 then [Digit(n)] else DigitsOf(n / 10) + [Digit(n % 10)]
  }

  /** The first unit listed that the count reaches. */
  function UnitFor(count: nat, order: seq<(string, Size)>): Option<(string, Size)> {
    if order == [] then None
    else if count >= order[0].1 then Some(order[0])
    else UnitFor(count, order[1..])
  }

  function OneDecimal(tenths: nat, unit: string): string {
    DigitsOf(tenths / 10) + ("." + [Digit(tenths % 10)] + (" " + unit))
  }

  function InUnit(count: nat, unit: (string, Size)): string {
    OneDecimal(RoundedQuotient(10 * count, unit.1), unit.0)
  }

  function RenderBytes(count: int): Result<string, UnitError> {
    if count < 0 then Err(Negative)
    else
      match UnitFor(count, RENDER_ORDER)
      case None => Ok(DigitsOf(count) + " B")
      case Some(unit) => Ok(InUnit(count, unit))
  }

  // --------------------------------------------------------------------- round trip

  lemma {:induction false} DigitsReadBack(n: nat)
    ensures forall c | c in DigitsOf(n) :: IsDigit(c)
    ensures ParseDigits(DigitsOf(n)) == n
    ensures DigitsOf(n) != []
  {
    if n >= 10 {
      DigitsReadBack(n / 10);
      assert DigitsOf(n)[..|DigitsOf(n)| - 1] == DigitsOf(n / 10);
    } else {
      assert DigitsOf(n)[..0] == [];
    }
  }

  lemma UnitMatches(unit: string)
    requires unit != [] && forall c | c in unit :: IsLetter(c)
    ensures MatchUnit(" " + unit) == Some(unit)
  {
    assert IsLetter(unit[0]);
    Text.SpanStops(" ", unit, Text.IsSpace);
    Text.SpanStops(unit, [], IsLetter);
    assert unit + [] == unit && Text.AfterSpaces([]) == [];
  }

  lemma FractionMatches(fraction: string, rest: string)
    requires fraction != [] && forall c | c in fraction :: IsDigit(c)
    requires rest == [] || !IsDigit(rest[0])
    ensures MatchFraction("." + fraction + rest) == Some((fraction, rest))
  {
    assert ("." + fraction + rest)[1..] == fraction + rest;
    Text.SpanStops(fraction, rest, IsDigit);
  }

  lemma NumberMatches(whole: string, rest: string, fraction: string, tail: string, unit: string)
    requires whole != [] && forall c | c in whole :: IsDigit(c)
    requires rest != [] && !IsDigit(rest[0])
    requires MatchFraction(rest) == Some((fraction, tail)) && MatchUnit(tail) == Some(unit)
    ensures Match(whole + rest) == Some(Quantity(whole + fraction, |fraction|, unit))
  {
    assert IsDigit(whole[0]) && (whole + rest)[0] == whole[0];
    Text.SpanStops([], whole + rest, Text.IsSpace);
    assert [] + (whole + rest) == whole + rest;
    Text.SpanStops(whole, rest, IsDigit);
  }

  lemma NothingAfter(digits: string)
    ensures digits + [] == digits
  {
  }

  lemma WholeMatches(digits: string, unit: string)
    requires digits != [] && forall c | c in digits :: IsDigit(c)
    requires unit != [] && forall c | c in unit :: IsLetter(c)
    ensures Match(digits + (" " + unit)) == Some(Quantity(digits, 0, unit))
  {
    var rest := " " + unit;
    UnitMatches(unit);
    assert rest[0] == ' ';
    assert MatchFraction(rest) == Some(([], rest));
    NumberMatches(digits, rest, [], rest, unit);
    NothingAfter(digits);
  }

  lemma DecimalMatches(whole: string, fraction: string, unit: string)
    requires whole != [] && forall c | c in whole :: IsDigit(c)
    requires fraction != [] && forall c | c in fraction :: IsDigit(c)
    requires unit != [] && forall c | c in unit :: IsLetter(c)
    ensures Match(whole + ("." + fraction + (" " + unit))) == Some(Quantity(whole + fraction, |fraction|, unit))
  {
    FractionMatches(fraction, " " + unit);
    UnitMatches(unit);
    NumberMatches(whole, "." + fraction + (" " + unit), fraction, " " + unit, unit);
  }

  lemma ParseInOf(units: map<string, Size>, assumed: Option<string>, text: string, q: Quantity)
    requires Match(text) == Some(q) && q.unit != [] && q.unit in units
    requires forall c | c in q.digits :: IsDigit(c)
    ensures ParseIn(units, assumed, text) ==
            Ok(RoundedQuotient(Times(ParseDigits(q.digits), units[q.unit]), PowerOfTen(q.places)))
  {
  }

  ghost predicate Spelled(unit: (string, Size), units: map<string, Size>) {
    && unit.0 in units && units[unit.0] == unit.1
    && unit.0 != [] && forall c | c in unit.0 :: IsLetter(c)
  }

  lemma WholeReadsBack(units: map<string, Size>, assumed: Option<string>, count: nat, unit: (string, Size))
    requires Spelled(unit, units) && unit.1 == 1
    ensures ParseIn(units, assumed, DigitsOf(count) + (" " + unit.0)) == Ok(count)
  {
    DigitsReadBack(count);
    WholeMatches(DigitsOf(count), unit.0);
    ParseInOf(units, assumed, DigitsOf(count) + (" " + unit.0), Quantity(DigitsOf(count), 0, unit.0));
    RoundedQuotientIsExact(count, 1);
  }

  lemma TenthsReadBack(tenths: nat)
    ensures var digits := DigitsOf(tenths / 10) + [Digit(tenths % 10)];
            (forall c | c in digits :: IsDigit(c)) && ParseDigits(digits) == tenths
  {
    DigitsReadBack(tenths / 10);
    var whole, fraction := DigitsOf(tenths / 10), [Digit(tenths % 10)];
    assert (whole + fraction)[..|whole|] == whole;
  }

  lemma OneDecimalMatches(tenths: nat, unit: string)
    requires unit != [] && forall c | c in unit :: IsLetter(c)
    ensures Match(OneDecimal(tenths, unit)) ==
            Some(Quantity(DigitsOf(tenths / 10) + [Digit(tenths % 10)], 1, unit))
  {
    var whole, fraction := DigitsOf(tenths / 10), [Digit(tenths % 10)];
    DigitsReadBack(tenths / 10);
    DecimalMatches(whole, fraction, unit);
  }

  lemma OneDecimalReadsBack(units: map<string, Size>, assumed: Option<string>, tenths: nat, unit: (string, Size))
    requires Spelled(unit, units)
    ensures ParseIn(units, assumed, OneDecimal(tenths, unit.0)) ==
            Ok(RoundedQuotient(Times(tenths, unit.1), PowerOfTen(1)))
  {
    TenthsReadBack(tenths);
    OneDecimalMatches(tenths, unit.0);
    ParseInOf(units, assumed, OneDecimal(tenths, unit.0),
              Quantity(DigitsOf(tenths / 10) + [Digit(tenths % 10)], 1, unit.0));
  }

  /** What is left of a count after rounding it to tenths of a unit and then to whole ones. */
  function Reread(count: nat, u: Size): nat {
    RoundedQuotient(Times(RoundedQuotient(10 * count, u), u), 10)
  }

  lemma WholeUnitsAreExact(k: nat, u: Size)
    ensures Reread(Times(k, u), u) == Times(k, u)
  {
    assert 10 * (k * u) == (10 * k) * u;
    RoundedQuotientIsExact(10 * k, u);
    assert (10 * k) * u == (k * u) * 10;
    RoundedQuotientIsExact(k * u, 10);
  }

  /** The two roundings add up to at most a twentieth of the unit and half of one. */
  lemma RereadIsClose(count: nat, u: Size)
    ensures -(u as int) - 10 <= 20 * (Reread(count, u) - count) <= u + 10
  {
    var p := Times(RoundedQuotient(10 * count, u), u);
    RoundedQuotientIsNearest(10 * count, u);
    RoundedQuotientIsNearest(p, 10);
    ErrorsAddUp(count, u, p, RoundedQuotient(p, 10));
  }

  lemma ErrorsAddUp(count: int, u: int, p: int, back: int)
    requires -u <= 2 * (p - 10 * count) <= u
    requires -10 <= 2 * (back * 10 - p) <= 10
    ensures -u - 10 <= 20 * (back - count) <= u + 10
  {
  }

  /** They come to nothing on a whole number of units. */
  lemma RereadIsExact(count: nat, u: Size)
    requires count % u == 0
    ensures Reread(count, u) == count
  {
    var k := count / u;
    assert Times(k, u) == count;
    WholeUnitsAreExact(k, u);
  }

  lemma InUnitReadsBack(units: map<string, Size>, assumed: Option<string>, count: nat, unit: (string, Size))
    requires Spelled(unit, units)
    ensures ParseIn(units, assumed, InUnit(count, unit)) == Ok(Reread(count, unit.1))
  {
    OneDecimalReadsBack(units, assumed, RoundedQuotient(10 * count, unit.1), unit);
    assert PowerOfTen(1) == 10 by { assert PowerOfTen(0) == 1; }
  }

  /** The unit a count is shown in is the largest one listed that does not exceed it. */
  lemma UnitIsLargest(count: nat)
    ensures UnitFor(count, RENDER_ORDER).None? <==> count < 1024
    ensures match UnitFor(count, RENDER_ORDER)
            case None => true
            case Some(unit) =>
              unit in RENDER_ORDER && unit.1 <= count
              && forall other | other in RENDER_ORDER && other.1 <= count :: other.1 <= unit.1
  {
    var o: seq<(string, Size)> := RENDER_ORDER;
    assert o[1..][1..] == o[2..] && o[2..][1..] == o[3..] && o[3..][1..] == o[4..] && |o[4..][1..]| == 0;
    assert UnitFor(count, o[4..]) == if count >= 1024 then Some(o[4]) else None;
    assert UnitFor(count, o[3..]) == if count >= o[3].1 then Some(o[3]) else UnitFor(count, o[4..]);
    assert UnitFor(count, o[2..]) == if count >= o[2].1 then Some(o[2]) else UnitFor(count, o[3..]);
    assert UnitFor(count, o[1..]) == if count >= o[1].1 then Some(o[1]) else UnitFor(count, o[2..]);
  }

  lemma ListedUnitsAreSpelled(unit: (string, Size))
    requires unit in RENDER_ORDER || unit == ("B", 1)
    ensures Spelled(unit, BYTE_UNITS)
  {
  }

  /** Below a kibibyte the text is read back exactly. */
  lemma SmallCountsReadBack(count: nat)
    requires count < 1024
    ensures RenderBytes(count).Ok? && ParseBytes(RenderBytes(count).value) == Ok(count)
  {
    UnitIsLargest(count);
    ListedUnitsAreSpelled(("B", 1));
    WholeReadsBack(BYTE_UNITS, Some("B"), count, ("B", 1));
    assert " B" == " " + "B";
  }

  /** From a kibibyte up it is read back within a twentieth of the unit it was shown in,
      and half a byte for reading it; exactly, when it is a whole number of that unit. */
  lemma LargeCountsReadBack(count: nat)
    requires count >= 1024
    ensures RenderBytes(count).Ok? && UnitFor(count, RENDER_ORDER).Some?
    ensures var u := UnitFor(count, RENDER_ORDER).value.1;
            var back := ParseBytes(RenderBytes(count).value);
            back.Ok?
            && -(u as int) - 10 <= 20 * (back.value - count) <= u + 10
            && (count % u == 0 ==> back.value == count)
  {
    UnitIsLargest(count);
    var unit := UnitFor(count, RENDER_ORDER).value;
    ListedUnitsAreSpelled(unit);
    InUnitReadsBack(BYTE_UNITS, Some("B"), count, unit);
    RereadIsClose(count, unit.1);
    if count % unit.1 == 0 {
      RereadIsExact(count, unit.1);
    }
  }

  /** Only a negative count has no text. */
  lemma RenderingRefusesExactlyNegatives(count: int)
    ensures RenderBytes(count).Err? <==> count < 0
  {
  }

  /** The text reads back as the count, exactly below 1024 and at whole multiples of the
      unit it is shown in, and otherwise within a twentieth of that unit and a half. */
  ghost predicate ReadsBackAs(text: string, count: nat) {
    var back := ParseBytes(text);
    back.Ok? &&
    match UnitFor(count, RENDER_ORDER)
    case None => back.value == count
    case Some(unit) =>
      var u := unit.1;
      -(u as int) - 10 <= 20 * (back.value - count) <= u + 10 && (count % u == 0 ==> back.value == count)
  }

  lemma RenderedReadsBack(count: nat)
    ensures RenderBytes(count).Ok? && ReadsBackAs(RenderBytes(count).value, count)
  {
    UnitIsLargest(count);
    if count < 1024 {
      SmallCountsReadBack(count);
    } else {
      LargeCountsReadBack(count);
    }
  }
}
