// What is a quantity, character by character, and how much it stands for.
module QuantityReading {
  import opened Wrappers
  import opened Units
  import Text

  ghost predicate Digits(s: string) {
    s != [] && forall c | c in s :: '0' <= c <= '9'
  }

  ghost predicate Letters(s: string) {
    forall c | c in s :: 'A' <= c <= 'Z' || 'a' <= c <= 'z'
  }

  function Point(fraction: string): string {
    if fraction == [] then [] else "." + fraction
  }

  datatype Parts = Parts(before: string, whole: string, fraction: string, gap: string, unit: string, after: string) {

    /** Digits, with more of them after a point or without a point, and letters; blanks around
        each of the two. */
    ghost predicate Valid() {
      && Text.Blank(before) && Digits(whole) && (fraction == [] || Digits(fraction)) && Text.Blank(gap) && Letters(unit) && Text.Blank(after)
    }

    function Written(): string {
      before + (whole + (Point(fraction) + (gap + (unit + after))))
    }
  }

  lemma OnlyBlanks(s: string)
    ensures Text.AfterSpaces(s) == [] <==> Text.Blank(s)
  {
    var blanks := Text.BlanksComeOff(s);
    if Text.Blank(s) {
      Text.BlanksAreSpaces(s);
      Text.SpanStops(s, [], Text.IsSpace);
      assert s + [] == s;
    } else {
      assert Text.AfterSpaces(s) == [] ==> s == blanks;
    }
  }

  lemma UnitIsRead(gap: string, unit: string, after: string)
    requires Text.Blank(gap) && Letters(unit) && Text.Blank(after)
    ensures MatchUnit(gap + (unit + after)) == Some(unit)
  {
    Text.BlanksAreSpaces(gap);
    Text.BlanksAreSpaces(after);
    OnlyBlanks(after);
    if unit == [] {
      assert unit + after == after;
      assert Text.Blank(gap + after);
      OnlyBlanks(gap + after);
      assert Text.AfterSpaces(gap + after) == [] && |Text.AfterSpaces(gap + after)| == 0;
      assert Text.AfterSpaces([]) == [];
    } else {
      assert unit[0] in unit && (unit + after)[0] == unit[0];
      Text.SpanStops(gap, unit + after, Text.IsSpace);
      assert after != [] ==> after[0] in after;
      Text.SpanStops(unit, after, IsLetter);
    }
  }

  lemma FractionIsRead(fraction: string, rest: string)
    requires fraction == [] || Digits(fraction)
    requires rest == [] || !('0' <= rest[0] <= '9' || rest[0] == '.')
    ensures MatchFraction(Point(fraction) + rest) == Some((fraction, rest))
  {
    if fraction == [] {
      assert Point(fraction) + rest == rest;
    } else {
      FractionMatches(fraction, rest);
    }
  }

  /** What comes after the digits begins with none of them and with no point. */
  lemma TailStops(gap: string, unit: string, after: string)
    requires Text.Blank(gap) && Letters(unit) && Text.Blank(after)
    ensures var rest := gap + (unit + after); rest == [] || !('0' <= rest[0] <= '9' || rest[0] == '.')
  {
    var rest := gap + (unit + after);
    assert rest != [] ==> rest[0] in gap || rest[0] in unit || rest[0] in after;
  }

  lemma WrittenIsRead(p: Parts)
    requires p.Valid()
    ensures Match(p.Written()) == Some(Quantity(p.whole + p.fraction, |p.fraction|, p.unit))
  {
    var rest := p.gap + (p.unit + p.after);
    var tail := Point(p.fraction) + rest;
    TailStops(p.gap, p.unit, p.after);
    UnitIsRead(p.gap, p.unit, p.after);
    FractionIsRead(p.fraction, rest);
    Text.BlanksAreSpaces(p.before);
    assert p.whole[0] in p.whole && (p.whole + tail)[0] == p.whole[0];
    Text.SpanStops(p.before, p.whole + tail, Text.IsSpace);
    assert p.fraction == [] ==> tail == rest;
    Text.SpanStops(p.whole, tail, IsDigit);
  }

  lemma UnitIsWritten(rest: string, unit: string) returns (gap: string, after: string)
    requires MatchUnit(rest) == Some(unit)
    ensures Text.Blank(gap) && Letters(unit) && Text.Blank(after) && rest == gap + (unit + after)
  {
    var tail := Text.AfterSpaces(rest);
    gap := Text.BlanksComeOff(rest);
    Text.SpanIsAmong(tail, IsLetter);
    after := tail[|unit|..];
    OnlyBlanks(after);
    assert tail == unit + after;
  }

  lemma FractionIsWritten(rest: string, fraction: string, tail: string)
    requires MatchFraction(rest) == Some((fraction, tail))
    ensures (fraction == [] || Digits(fraction)) && rest == Point(fraction) + tail
  {
    if rest != [] && rest[0] == '.' {
      Text.SpanIsAmong(rest[1..], IsDigit);
      assert rest == "." + rest[1..] && rest[1..] == fraction + tail;
    }
  }

  lemma DigitsComeFirst(start: string) returns (whole: string, rest: string)
    requires Text.Span(start, IsDigit) > 0
    ensures var n := Text.Span(start, IsDigit); whole == start[..n] && rest == start[n..]
    ensures Digits(whole) && start == whole + rest
  {
    Text.SpanIsAmong(start, IsDigit);
    var n := Text.Span(start, IsDigit);
    whole, rest := start[..n], start[n..];
  }

  lemma Joined(text: string, p: Parts, start: string, tail: string, rest: string)
    requires text == p.before + start && start == p.whole + tail && tail == Point(p.fraction) + rest
    requires rest == p.gap + (p.unit + p.after)
    ensures text == p.Written()
  {
  }

  lemma ReadIsWritten(text: string) returns (p: Parts)
    requires Match(text).Some?
    ensures p.Valid() && text == p.Written() && Match(text).value == Quantity(p.whole + p.fraction, |p.fraction|, p.unit)
  {
    var before := Text.BlanksComeOff(text);
    var start := Text.AfterSpaces(text);
    var whole, tail := DigitsComeFirst(start);
    var found := MatchFraction(tail);
    FractionIsWritten(tail, found.value.0, found.value.1);
    var gap, after := UnitIsWritten(found.value.1, MatchUnit(found.value.1).value);
    p := Parts(before, whole, found.value.0, gap, MatchUnit(found.value.1).value, after);
    Joined(text, p, start, tail, found.value.1);
  }

  /** A text is a quantity exactly when it is written so, and in one way only. */
  lemma QuantityExactly(text: string, q: Quantity)
    ensures Match(text) == Some(q) <==>
            exists p: Parts :: p.Valid() && text == p.Written() && q == Quantity(p.whole + p.fraction, |p.fraction|, p.unit)
  {
    if Match(text) == Some(q) {
      var p := ReadIsWritten(text);
    }
    forall p: Parts | p.Valid() && text == p.Written() && q == Quantity(p.whole + p.fraction, |p.fraction|, p.unit)
      ensures Match(text) == Some(q)
    {
      WrittenIsRead(p);
    }
  }

  // ------------------------------------------------------------------------------- how much

  /** The whole number nearest to the fraction, and of two as near the even one. */
  ghost predicate Nearest(v: nat, top: nat, bottom: nat) {
    && -(bottom as int) <= 2 * (v * bottom - top) <= bottom
    && (2 * (v * bottom - top) == bottom || 2 * (v * bottom - top) == -(bottom as int) ==> v % 2 == 0)
  }

  lemma RoundedIsNearest(top: nat, bottom: nat)
    requires bottom > 0
    ensures Nearest(RoundedQuotient(top, bottom), top, bottom)
  {
    RoundedQuotientIsNearest(top, bottom);
    var q, r := top / bottom, top % bottom;
    assert top == q * bottom + r;
    assert (q + 1) * bottom == q * bottom + bottom;
  }

  /** The digits read as one number. */
  ghost function Figure(p: Parts): nat
    requires p.Valid()
  {
    ParseDigits(p.whole + p.fraction)
  }

  /** The number the digits stand for times the size of the unit, to the nearest whole one. */
  ghost predicate Amounts(p: Parts, size: nat, v: nat)
    requires p.Valid()
  {
    Nearest(v, Figure(p) * size, PowerOfTen(|p.fraction|))
  }

  lemma ScaledIsNearest(p: Parts, text: string, size: nat)
    requires p.Valid() && text == p.Written() && Match(text).Some?
    ensures Amounts(p, size, Scaled(text, size))
  {
    WrittenIsRead(p);
    RoundedIsNearest(Times(Figure(p), size), PowerOfTen(|p.fraction|));
  }

  /** A quantity is its digits read as one number, over ten for each of them that came after
      the point, times its unit; one that is not listed, or none where one has to be, is refused. */
  lemma QuantitiesAreRead(units: map<string, Size>, assumed: Option<string>, p: Parts, text: string)
    requires p.Valid() && text == p.Written()
    ensures var read := ParseIn(units, assumed, text); var unit := if p.unit == [] then assumed else Some(p.unit);
            && (unit.None? ==> read == Err(NotAQuantity))
            && (unit.Some? && unit.value in units ==> read.Ok? && Amounts(p, units[unit.value], read.value))
            && (unit.Some? && unit.value !in units ==> read == Err(UnknownUnit))
  {
    WrittenIsRead(p);
    var unit := if p.unit == [] then assumed else Some(p.unit);
    if unit.Some? && unit.value in units {
      ScaledIsNearest(p, text, units[unit.value]);
    }
  }

  /** Bytes may be written without a unit and durations may not. */
  lemma BytesAndDurations(text: string)
    ensures ParseBytes(text) == ParseIn(BYTE_UNITS, Some("B"), text)
    ensures ParseMilliseconds(text) == ParseIn(DURATIONS, None, text)
  {
  }

  lemma NothingElseIsRead(text: string)
    requires forall p: Parts | p.Valid() :: text != p.Written()
    ensures ParseBytes(text) == Err(NotAQuantity) && ParseMilliseconds(text) == Err(NotAQuantity)
  {
    if Match(text).Some? {
      var p := ReadIsWritten(text);
    }
  }

  /** Each decimal unit is a thousand of the one before it and each binary one 1024; a second
      is a thousand milliseconds, and there are no other units. */
  lemma UnitsAreSized()
    ensures BYTE_UNITS.Keys == {"B", "KB", "MB", "GB", "TB", "PB", "KiB", "MiB", "GiB", "TiB", "PiB"}
    ensures BYTE_UNITS["B"] == 1 && BYTE_UNITS["KB"] == 1000 && BYTE_UNITS["KiB"] == 1024
    ensures BYTE_UNITS["MB"] == 1000 * BYTE_UNITS["KB"] && BYTE_UNITS["MiB"] == 1024 * BYTE_UNITS["KiB"]
    ensures BYTE_UNITS["GB"] == 1000 * BYTE_UNITS["MB"] && BYTE_UNITS["GiB"] == 1024 * BYTE_UNITS["MiB"]
    ensures BYTE_UNITS["TB"] == 1000 * BYTE_UNITS["GB"] && BYTE_UNITS["TiB"] == 1024 * BYTE_UNITS["GiB"]
    ensures BYTE_UNITS["PB"] == 1000 * BYTE_UNITS["TB"] && BYTE_UNITS["PiB"] == 1024 * BYTE_UNITS["TiB"]
    ensures DURATIONS.Keys == {"ms", "s"} && DURATIONS["ms"] == 1 && DURATIONS["s"] == 1000
  {
  }

  /** A count below 1024 is shown as it is; any other with one decimal of the largest binary
      unit it reaches, to the nearest tenth. */
  lemma CountsAreShown(count: nat)
    ensures RenderBytes(count).Ok?
    ensures count < 1024 ==> RenderBytes(count).value == DigitsOf(count) + " B"
    ensures count >= 1024 ==> exists unit, tenths: nat :: ShownIn(count, unit, tenths, RenderBytes(count).value)
  {
    UnitIsLargest(count);
    if count >= 1024 {
      var unit := UnitFor(count, RENDER_ORDER).value;
      RoundedIsNearest(10 * count, unit.1);
      assert ShownIn(count, unit, RoundedQuotient(10 * count, unit.1), RenderBytes(count).value);
    }
  }

  ghost predicate ShownIn(count: nat, unit: (string, Size), tenths: nat, text: string) {
    && unit in RENDER_ORDER && unit.1 <= count && (forall other | other in RENDER_ORDER && other.1 <= count :: other.1 <= unit.1)
    && Nearest(tenths, 10 * count, unit.1)
    && text == DigitsOf(tenths / 10) + ("." + DigitsOf(tenths % 10) + (" " + unit.0))
  }

  lemma NegativeHasNoText(count: int)
    ensures RenderBytes(count) == Err(Negative) <==> count < 0
  {
  }
}
