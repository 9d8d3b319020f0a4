// One sizing rule on one scope: its formula, then its rounding, then its bounds.
module SizingRules {
  import opened Wrappers
  import opened Values
  import opened Expressions
  import Units
  import Sound = ExpressionSoundness
  import Monotone = ExpressionMonotone

  datatype Unit = Bytes | Milliseconds | Seconds | Count | Ratio | Words {

    /** Results in the unit are whole numbers. */
    predicate CountsWhole() {
      Bytes? || Milliseconds? || Seconds? || Count?
    }
  }

  datatype Bound = Figure(n: Number) | Written(text: string) | YesNo(b: bool)

  datatype Rule = Rule(
    identifier: string, parameter: string, expr: Node, unit: Unit,
    minimum: Option<Bound>, maximum: Option<Bound>, warnAbove: Option<Bound>, roundTo: Option<Bound>)

  datatype Field = Min | Max | RoundTo | WarnAbove

  /** Which bound a value was held at, if one moved it. */
  datatype Held = Free | AtMin | AtMax

  datatype Detail =
    | Unreadable(culprit: Node)
    | ReadsItself
    | Waits(ring: seq<string>)
    | Failed(fault: Fault)
    | NotAFigure
    | NotText
    | NoUseFor(field: Field)
    | NoRounding
    | RoundsToZero
    | MinAboveMax
    | BadBound(field: Field)

  /** Why there is no plan. `NegativeBytes` and `Escaped` are not refusals the planner
      means to make: an exception from rendering, and one from evaluating, come through. */
  datatype PlanError =
    | SizingError(rule: Rule, detail: Detail)
    | Unsized(rule: Rule, at: Node)
    | NegativeBytes(rule: Rule)
    | Escaped(panic: Panic)

  /** How a person reads the value: bytes as text, anything else as the figure it is. */
  datatype Display = AsBytes(text: string) | AsFigure(n: Number, unit: Unit) | AsWords(text: string)

  datatype Sized = Sized(
    parameter: string, value: Value, unit: Unit, display: Display, rule: string,
    boundedBy: Held, aboveAdvisory: Option<Number>)

  // ------------------------------------------------------------------------ quantities

  /** `int()`: toward zero, which is down only for what is not negative. */
  function Truncated(r: real): int {
    if r >= 0.0 then r.Floor else -((-r).Floor)
  }

  function AsWhole(unit: Unit, n: Number): Number {
    if unit.CountsWhole() then
      match n
      case Whole(_) => n
      case Frac(r) => Whole(Truncated(r))
    else n
  }

  function Quantity(rule: Rule, bound: Bound, field: Field): Result<Number, PlanError> {
    match bound
    case YesNo(_) => Err(SizingError(rule, BadBound(field)))
    case Figure(n) => Ok(n)
    case Written(text) =>
      if rule.unit.Bytes? then
        match Units.ParseBytes(text)
        case Ok(n) => Ok(Whole(n))
        case Err(_) => Err(SizingError(rule, BadBound(field)))
      else if rule.unit.Milliseconds? || rule.unit.Seconds? then
        match Units.ParseMilliseconds(text)
        case Err(_) => Err(SizingError(rule, BadBound(field)))
        case Ok(ms) =>
          if rule.unit.Milliseconds? then Ok(Whole(ms))
          else if ms % 1000 != 0 then Err(SizingError(rule, BadBound(field)))
          else Ok(Whole(ms / 1000))
      else Err(SizingError(rule, BadBound(field)))
  }

  function OptionalQuantity(rule: Rule, bound: Option<Bound>, field: Field): Result<Option<Number>, PlanError> {
    match bound
    case None => Ok(None)
    case Some(b) =>
      var n :- Quantity(rule, b, field);
      Ok(Some(n))
  }

  // --------------------------------------------------------------- around the formula

  function Rounded(rule: Rule, raw: Number): Result<Number, PlanError> {
    var whole := AsWhole(rule.unit, raw);
    if rule.roundTo.None? then Ok(whole)
    else if !rule.unit.CountsWhole() then Err(SizingError(rule, NoRounding))
    else
      var q :- Quantity(rule, rule.roundTo.value, RoundTo);
      var step := Truncated(q.Real());
      if step <= 0 then Err(SizingError(rule, RoundsToZero))
      else
        var n := Truncated(whole.Real());
        Ok(Whole(n - n % step))
  }

  function Clamped(unit: Unit, value: Number, floor: Option<Number>, ceiling: Option<Number>): (Number, Held) {
    if floor.Some? && value.Real() < floor.value.Real() then (AsWhole(unit, floor.value), AtMin)
    else if ceiling.Some? && value.Real() > ceiling.value.Real() then (AsWhole(unit, ceiling.value), AtMax)
    else (value, Free)
  }

  function Bounded(rule: Rule, value: Number): Result<(Number, Held), PlanError> {
    var floor :- OptionalQuantity(rule, rule.minimum, Min);
    var ceiling :- OptionalQuantity(rule, rule.maximum, Max);
    if floor.Some? && ceiling.Some? && floor.value.Real() > ceiling.value.Real() then
      Err(SizingError(rule, MinAboveMax))
    else Ok(Clamped(rule.unit, value, floor, ceiling))
  }

  function Advisory(rule: Rule, value: Number): Result<Option<Number>, PlanError> {
    var limit :- OptionalQuantity(rule, rule.warnAbove, WarnAbove);
    if limit.Some? && value.Real() > limit.value.Real() then Ok(Some(AsWhole(rule.unit, limit.value)))
    else Ok(None)
  }

  function Displayed(rule: Rule, value: Number): Result<Display, PlanError> {
    if rule.unit.Bytes? then
      match Units.RenderBytes(Truncated(value.Real()))
      case Ok(text) => Ok(AsBytes(text))
      case Err(_) => Err(NegativeBytes(rule))
    else Ok(AsFigure(value, rule.unit))
  }

  function FitNumber(rule: Rule, raw: Number): Result<Sized, PlanError> {
    var rounded :- Rounded(rule, raw);
    var bounded :- Bounded(rule, rounded);
    var display :- Displayed(rule, bounded.0);
    var advisory :- Advisory(rule, bounded.0);
    Ok(Sized(rule.parameter, Num(bounded.0), rule.unit, display, rule.identifier, bounded.1, advisory))
  }

  function FitText(rule: Rule, raw: Value): Result<Sized, PlanError> {
    if !raw.Text? then Err(SizingError(rule, NotText))
    else if rule.minimum.Some? then Err(SizingError(rule, NoUseFor(Min)))
    else if rule.maximum.Some? then Err(SizingError(rule, NoUseFor(Max)))
    else if rule.roundTo.Some? then Err(SizingError(rule, NoUseFor(RoundTo)))
    else if rule.warnAbove.Some? then Err(SizingError(rule, NoUseFor(WarnAbove)))
    else Ok(Sized(rule.parameter, raw, rule.unit, AsWords(raw.s), rule.identifier, Free, None))
  }

  /** One rule on one scope. */
  function Size(rule: Rule, s: Scope): Result<Sized, PlanError> {
    match Check(rule.expr)
    case Refused(culprit) => Err(SizingError(rule, Unreadable(culprit)))
    case Accepted =>
      match Evaluate(rule.expr, s)
      case Missing(at) => Err(Unsized(rule, at))
      case Wrong(fault) => Err(SizingError(rule, Failed(fault)))
      case Crash(panic) => Err(Escaped(panic))
      case Val(raw) =>
        if rule.unit.Words? then FitText(rule, raw)
        else if raw.Num? then FitNumber(rule, raw.n)
        else Err(SizingError(rule, NotAFigure))
  }

  // ------------------------------------------------------------------------------ laws

  /** The step a rule rounds to, where rounding is asked for and possible. */
  function Step(rule: Rule): Option<int> {
    if rule.roundTo.None? then None
    else
      match Quantity(rule, rule.roundTo.value, RoundTo)
      case Ok(q) => Some(Truncated(q.Real()))
      case Err(_) => None
  }

  function LimitOf(rule: Rule, bound: Option<Bound>, field: Field): Option<Number> {
    match OptionalQuantity(rule, bound, field)
    case Ok(limit) => limit
    case Err(_) => None
  }

  predicate IsWhole(r: real) {
    r.Floor as real == r
  }

  lemma TruncatedIsMonotone(a: real, b: real)
    requires a <= b
    ensures Truncated(a) <= Truncated(b)
  {
    FloorIsNearest(a);
    FloorIsNearest(b);
    FloorIsNearest(-a);
    FloorIsNearest(-b);
  }

  lemma TruncatedIsExactOnWholes(r: real)
    requires IsWhole(r)
    ensures Truncated(r) as real == r
  {
    if r < 0.0 {
      FloorOfWhole(-r.Floor);
      assert -r == (-r.Floor) as real;
    }
  }

  lemma FloorOfWhole(k: int)
    ensures (k as real).Floor == k
  {
  }

  /** On what is not negative, truncating is rounding down; on what is, it is not. */
  lemma TruncatedRoundsDownExactly(r: real)
    ensures Truncated(r) as real <= r <==> r >= 0.0 || IsWhole(r)
    ensures r >= 0.0 ==> r < Truncated(r) as real + 1.0
  {
    FloorIsNearest(r);
    FloorIsNearest(-r);
    if IsWhole(r) {
      TruncatedIsExactOnWholes(r);
    } else if r < 0.0 {
      assert Truncated(r) as real == -((-r).Floor as real);
      FloorOfWhole(Truncated(r));
    }
  }

  lemma ScaledAtLeast(k: int, step: int)
    requires k >= 1 && step > 0
    ensures step * k >= step && step * -k <= -step
  {
  }

  lemma MultipleHasNoRemainder(k: int, step: int)
    requires step > 0
    ensures (step * k) % step == 0
  {
    var d := k - (step * k) / step;
    assert (step * k) % step == step * d;
    if d >= 1 {
      ScaledAtLeast(d, step);
    } else if d <= -1 {
      ScaledAtLeast(-d, step);
    }
  }

  lemma SnappedIsMonotone(a: int, b: int, step: int)
    requires step > 0 && a <= b
    ensures a - a % step <= b - b % step
  {
    var d := b / step - a / step;
    assert (b - b % step) - (a - a % step) == step * d;
    if d <= -1 {
      ScaledAtLeast(-d, step);
    }
  }

  /** Rounding never goes above a raw value that is not negative, and leaves less than one
      step behind; a negative one it can carry upward, exactly when the value is not whole
      and its whole part is already a multiple of the step. */
  lemma RoundedIsGreatestMultiple(rule: Rule, raw: Number)
    requires rule.unit.CountsWhole() && Rounded(rule, raw).Ok?
    ensures var v := Rounded(rule, raw).value;
            var step := if rule.roundTo.None? then 1 else Step(rule).value;
            && step > 0 && v.Whole? && v.i % step == 0
            && (raw.Real() >= 0.0 ==> v.Real() <= raw.Real() < v.Real() + step as real)
            && (v.Real() <= raw.Real() <==>
                raw.Real() >= 0.0 || IsWhole(raw.Real()) || Truncated(raw.Real()) % step != 0)
  {
    var whole := AsWhole(rule.unit, raw);
    var n := Truncated(raw.Real());
    assert whole == Whole(n);
    assert Truncated(whole.Real()) == n;
    TruncatedRoundsDownExactly(raw.Real());
    var step := if rule.roundTo.None? then 1 else Step(rule).value;
    var v := Rounded(rule, raw).value;
    assert v == Whole(n - n % step);
    SnappedIsMultiple(n, step);
  }

  lemma SnappedIsMultiple(n: int, step: int)
    requires step > 0
    ensures (n - n % step) % step == 0
    ensures n - n % step <= n < n - n % step + step
    ensures n % step != 0 ==> n - n % step <= n - 1
  {
    assert n - n % step == step * (n / step);
    MultipleHasNoRemainder(n / step, step);
  }

  /** Which bound is named, and that the two of them never cross. */
  lemma BoundIsTheOnePassed(rule: Rule, value: Number)
    requires Bounded(rule, value).Ok?
    ensures var floor, ceiling := LimitOf(rule, rule.minimum, Min), LimitOf(rule, rule.maximum, Max);
            var (bounded, held) := Bounded(rule, value).value;
            && (held == AtMin <==> floor.Some? && value.Real() < floor.value.Real())
            && (held == AtMax <==> ceiling.Some? && ceiling.value.Real() < value.Real())
            && (held == Free ==> bounded == value)
            && (floor.Some? && ceiling.Some? ==> floor.value.Real() <= ceiling.value.Real())
  {
  }

  /** A fractional limit of a count that truncates onto the very value it was passed by: a
      floor less than one above a count that is not negative, or a ceiling less than one
      below a count that is not positive. */
  predicate TruncatesOnto(unit: Unit, value: Number, floor: Option<Number>, ceiling: Option<Number>) {
    var v := value.Real();
    unit.CountsWhole() && IsWhole(v)
    && ((floor.Some? && 0.0 <= v < floor.value.Real() < v + 1.0)
        || (ceiling.Some? && v - 1.0 < ceiling.value.Real() < v <= 0.0))
  }

  /** A bound that is named moved the value, and a value that moved has its bound named,
      save exactly where a fractional limit truncates onto the value; whole limits never
      do. */
  lemma BoundedByExactly(rule: Rule, value: Number)
    requires Bounded(rule, value).Ok?
    ensures var floor, ceiling := LimitOf(rule, rule.minimum, Min), LimitOf(rule, rule.maximum, Max);
            var (bounded, held) := Bounded(rule, value).value;
            && (bounded.Real() != value.Real() <==> held != Free && !TruncatesOnto(rule.unit, value, floor, ceiling))
            && (WholeLimit(floor) && WholeLimit(ceiling) ==> (held != Free <==> bounded.Real() != value.Real()))
  {
    BoundIsTheOnePassed(rule, value);
    MovedExactly(rule.unit, value, LimitOf(rule, rule.minimum, Min), LimitOf(rule, rule.maximum, Max));
  }

  lemma FloorsToExactly(r: real, v: real)
    ensures r.Floor as real == v <==> IsWhole(v) && v <= r < v + 1.0
  {
    FloorIsNearest(r);
    FloorOfWhole(r.Floor);
    if IsWhole(v) && v <= r < v + 1.0 {
      var k, n := v.Floor, r.Floor;
      assert k as real < n as real + 1.0 && n as real < k as real + 1.0;
      assert k < n + 1 && n < k + 1;
    }
  }

  lemma NegatedWhole(v: real)
    ensures IsWhole(-v) <==> IsWhole(v)
  {
    FloorOfWhole(-v.Floor);
    FloorOfWhole(-(-v).Floor);
  }

  /** Truncating one real gives another exactly when that one is whole and less than one
      nearer zero, or the same. */
  lemma TruncatesToExactly(bound: real, v: real)
    ensures Truncated(bound) as real == v <==>
            IsWhole(v) && (0.0 <= v <= bound < v + 1.0 || v - 1.0 < bound <= v <= 0.0)
  {
    if bound >= 0.0 {
      FloorsToExactly(bound, v);
      WholeOnTheSameSide(bound, v);
    } else {
      FloorsToExactly(-bound, -v);
      NegatedWhole(v);
      WholeOnTheSameSide(-bound, -v);
    }
  }

  lemma WholeOnTheSameSide(r: real, v: real)
    requires r >= 0.0
    ensures IsWhole(v) && v <= r < v + 1.0 ==> v >= 0.0
    ensures IsWhole(v) && v - 1.0 < r <= v <= 0.0 ==> v <= r < v + 1.0
  {
    if IsWhole(v) && v < 0.0 {
      var k := v.Floor;
      assert k as real < 0.0;
      assert k <= -1;
    }
  }

  /** What a limit becomes is another value exactly when it is not one it truncates onto. */
  lemma LimitMovesExactly(unit: Unit, limit: Number, v: real)
    ensures AsWhole(unit, limit).Real() == v <==>
            if unit.CountsWhole() then
              IsWhole(v) && (0.0 <= v <= limit.Real() < v + 1.0 || v - 1.0 < limit.Real() <= v <= 0.0)
            else limit.Real() == v
    ensures IsWhole(limit.Real()) ==> AsWhole(unit, limit).Real() == limit.Real()
  {
    if unit.CountsWhole() {
      AsWholeIsTruncated(unit, limit);
      TruncatesToExactly(limit.Real(), v);
      WholeLimitIsKept(Some(limit));
    }
  }

  lemma MovedExactly(unit: Unit, value: Number, floor: Option<Number>, ceiling: Option<Number>)
    requires floor.Some? && ceiling.Some? ==> floor.value.Real() <= ceiling.value.Real()
    ensures var (bounded, held) := Clamped(unit, value, floor, ceiling);
            && (bounded.Real() != value.Real() <==> held != Free && !TruncatesOnto(unit, value, floor, ceiling))
            && (WholeLimit(floor) && WholeLimit(ceiling) ==> (held != Free <==> bounded.Real() != value.Real()))
  {
    var held := Clamped(unit, value, floor, ceiling).1;
    if held == AtMin {
      LimitMovesExactly(unit, floor.value, value.Real());
    } else if held == AtMax {
      LimitMovesExactly(unit, ceiling.value, value.Real());
    }
  }

  predicate Within(value: Number, floor: Option<Number>, ceiling: Option<Number>) {
    && (floor.Some? ==> floor.value.Real() <= value.Real())
    && (ceiling.Some? ==> value.Real() <= ceiling.value.Real())
  }

  /** A value in whole units is inside its bounds exactly when the bound that held it was
      not carried outside them by being truncated: a floor that is whole always is inside,
      a fractional one only below zero and clear of the ceiling; a ceiling has to truncate
      downward and to stay clear of the floor. */
  lemma InsideBoundsExactly(rule: Rule, value: Number)
    requires rule.unit.CountsWhole() && Bounded(rule, value).Ok?
    ensures var floor, ceiling := LimitOf(rule, rule.minimum, Min), LimitOf(rule, rule.maximum, Max);
            Within(Bounded(rule, value).value.0, floor, ceiling) <==>
            && (floor.Some? && value.Real() < floor.value.Real() ==>
                  var f := floor.value.Real();
                  IsWhole(f) || (f < 0.0 && (ceiling.Some? ==> Truncated(f) as real <= ceiling.value.Real())))
            && (ceiling.Some? && ceiling.value.Real() < value.Real() ==>
                  var c := ceiling.value.Real();
                  (c >= 0.0 || IsWhole(c)) && (floor.Some? ==> floor.value.Real() <= Truncated(c) as real))
  {
    BoundIsTheOnePassed(rule, value);
    var floor, ceiling := LimitOf(rule, rule.minimum, Min), LimitOf(rule, rule.maximum, Max);
    if floor.Some? {
      TruncatedRoundsDownExactly(floor.value.Real());
      TruncatedRoundsDownExactly(-floor.value.Real());
    }
    if ceiling.Some? {
      TruncatedRoundsDownExactly(ceiling.value.Real());
    }
  }

  ghost predicate WholeLimit(limit: Option<Number>) {
    limit.Some? ==> IsWhole(limit.value.Real())
  }

  /** The promise in one piece: a count sized from a raw value that is not negative, under
      limits that are whole, is inside them; and where neither held it, it is the greatest
      multiple of the step that is not above the raw value. */
  lemma FittedAsPromised(rule: Rule, raw: Number)
    requires rule.unit.CountsWhole() && raw.Real() >= 0.0 && FitNumber(rule, raw).Ok?
    requires WholeLimit(LimitOf(rule, rule.minimum, Min)) && WholeLimit(LimitOf(rule, rule.maximum, Max))
    ensures var sized := FitNumber(rule, raw).value;
            && sized.value.Num? && sized.value.n.Whole?
            && Within(sized.value.n, LimitOf(rule, rule.minimum, Min), LimitOf(rule, rule.maximum, Max))
            && (sized.boundedBy == Free ==>
                  var step := if rule.roundTo.None? then 1 else Step(rule).value;
                  step > 0 && GreatestMultiple(sized.value.n.i, step, raw.Real()))
  {
    var rounded := Rounded(rule, raw).value;
    RoundedIsGreatestMultiple(rule, raw);
    BoundIsTheOnePassed(rule, rounded);
    InsideBoundsExactly(rule, rounded);
    WholeLimitIsKept(LimitOf(rule, rule.minimum, Min));
    WholeLimitIsKept(LimitOf(rule, rule.maximum, Max));
    if Bounded(rule, rounded).value.1 == Free {
      var step := if rule.roundTo.None? then 1 else Step(rule).value;
      NothingBetweenMultiples(rounded.i, step, raw.Real());
    }
  }

  lemma WholeLimitIsKept(limit: Option<Number>)
    ensures limit.Some? && WholeLimit(limit) ==> Truncated(limit.value.Real()) as real == limit.value.Real()
  {
    if limit.Some? && WholeLimit(limit) {
      TruncatedIsExactOnWholes(limit.value.Real());
    }
  }

  /** A multiple of the step, not above the value, and no larger one is either. */
  ghost predicate GreatestMultiple(v: int, step: int, raw: real)
    requires step > 0
  {
    && v % step == 0 && v as real <= raw
    && forall w | w % step == 0 && w as real <= raw :: w <= v
  }

  lemma NothingBetweenMultiples(v: int, step: int, raw: real)
    requires step > 0 && v % step == 0 && v as real <= raw < v as real + step as real
    ensures GreatestMultiple(v, step, raw)
  {
    forall w | w % step == 0 && w as real <= raw ensures w <= v {
      assert (w as real) < (v + step) as real;
      var d := w / step - v / step;
      assert w - v == step * d;
      if d >= 1 {
        ScaledAtLeast(d, step);
      } else if d <= -1 {
        ScaledAtLeast(-d, step);
      }
    }
  }

  /** A size in bytes is shown so that it reads back: exactly below 1024 and at whole
      multiples of the unit shown, and otherwise within a twentieth of that unit and a half. */
  lemma DisplayReadsBack(rule: Rule, raw: Number)
    requires rule.unit.Bytes? && FitNumber(rule, raw).Ok?
    ensures var sized := FitNumber(rule, raw).value;
            && sized.value.Num? && sized.value.n.Whole? && sized.value.n.i >= 0 && sized.display.AsBytes?
            && Units.ReadsBackAs(sized.display.text, sized.value.n.i)
  {
    var rounded := Rounded(rule, raw).value;
    RoundedIsMonotone(rule, raw, raw);
    BoundedIsWhole(rule, rounded);
    BytesAreShown(rule, Bounded(rule, rounded).value.0);
  }

  lemma BoundedIsWhole(rule: Rule, value: Number)
    requires rule.unit.CountsWhole() && value.Whole? && Bounded(rule, value).Ok?
    ensures Bounded(rule, value).value.0.Whole?
  {
  }

  lemma BytesAreShown(rule: Rule, value: Number)
    requires rule.unit.Bytes? && value.Whole? && Displayed(rule, value).Ok?
    ensures value.i >= 0 && Displayed(rule, value).value.AsBytes?
    ensures Units.ReadsBackAs(Displayed(rule, value).value.text, value.i)
  {
    var n := value.i;
    TruncatedIsExactOnWholes(n as real);
    FloorOfWhole(n);
    Units.RenderingRefusesExactlyNegatives(n);
    Units.RenderedReadsBack(n);
  }

  /** A fractional floor on a count lets a value through that is below it. */
  lemma FractionalFloorIsNotKept()
    ensures var rule := Rule("fixture.a", "a", Constant(Num(Whole(0))), Count, Some(Figure(Frac(0.5))), None, None, None);
            Bounded(rule, Whole(0)) == Ok((Whole(0), AtMin))
            && !Within(Whole(0), LimitOf(rule, rule.minimum, Min), None)
  {
  }

  /** A negative raw value is carried upward: a count sized from minus a half is zero. */
  lemma NegativeIsCarriedUp(s: Scope)
    ensures var half := Unary(Negate, Constant(Num(Frac(0.5))));
            var rule := Rule("fixture.b", "b", half, Count, None, None, None, None);
            Evaluate(half, s) == Val(Num(Frac(-0.5)))
            && Size(rule, s).Ok? && Size(rule, s).value.value == Num(Whole(0)) && Size(rule, s).value.boundedBy == Free
  {
    var half := Unary(Negate, Constant(Num(Frac(0.5))));
    assert Check(half).Accepted?;
    assert Truncated(-0.5) == 0;
  }

  // --------------------------------------------------------------- sizes below nothing

  /** What the rule's own fields have to be for its rounding and its bounds to be read. */
  predicate WellLimited(rule: Rule) {
    && (rule.roundTo.None? || (Step(rule).Some? && Step(rule).value > 0))
    && OptionalQuantity(rule, rule.minimum, Min).Ok? && OptionalQuantity(rule, rule.maximum, Max).Ok?
    && var floor, ceiling := LimitOf(rule, rule.minimum, Min), LimitOf(rule, rule.maximum, Max);
       floor.Some? && ceiling.Some? ==> floor.value.Real() <= ceiling.value.Real()
  }

  predicate AtMostMinusOne(limit: Option<Number>) {
    limit.Some? && limit.value.Real() <= -1.0
  }

  /** A size in bytes that would come out negative is refused by an error that is not a
      sizing error. It happens exactly when the rule's limits can be read and either its
      ceiling is minus one or less, or the raw value is and no floor above that lifts it. A
      rule with a floor above minus one never meets it. */
  lemma NegativeBytesExactly(rule: Rule, raw: Number)
    requires rule.unit.Bytes?
    ensures var floor, ceiling := LimitOf(rule, rule.minimum, Min), LimitOf(rule, rule.maximum, Max);
            FitNumber(rule, raw) == Err(NegativeBytes(rule)) <==>
            WellLimited(rule)
            && (AtMostMinusOne(ceiling) || (raw.Real() <= -1.0 && (floor.None? || AtMostMinusOne(floor))))
    ensures var floor := LimitOf(rule, rule.minimum, Min);
            floor.Some? && floor.value.Real() > -1.0 ==> FitNumber(rule, raw) != Err(NegativeBytes(rule))
  {
    FieldsAreRead(rule, raw);
    if WellLimited(rule) {
      var rounded := Rounded(rule, raw).value;
      RoundedIsMonotone(rule, raw, raw);
      RoundedBelowNothing(rule, raw);
      BoundedIsWhole(rule, rounded);
      var bounded := Bounded(rule, rounded).value.0;
      RefusedBelowNothing(rule, bounded);
      ClampedBelowNothing(rule.unit, rounded, LimitOf(rule, rule.minimum, Min), LimitOf(rule, rule.maximum, Max));
    }
  }

  lemma FieldsAreRead(rule: Rule, raw: Number)
    requires rule.unit.CountsWhole()
    ensures Rounded(rule, raw).Ok? && Bounded(rule, Rounded(rule, raw).value).Ok? <==> WellLimited(rule)
    ensures Rounded(rule, raw).Err? ==> Rounded(rule, raw).error.SizingError?
    ensures Rounded(rule, raw).Ok? && Bounded(rule, Rounded(rule, raw).value).Err? ==>
              Bounded(rule, Rounded(rule, raw).value).error.SizingError?
  {
  }

  lemma RoundedBelowNothing(rule: Rule, raw: Number)
    requires rule.unit.CountsWhole() && Rounded(rule, raw).Ok? && Rounded(rule, raw).value.Whole?
    ensures Rounded(rule, raw).value.i < 0 <==> raw.Real() <= -1.0
  {
    TruncatedBelowNothing(raw.Real());
    if rule.roundTo.None? {
      AsWholeIsTruncated(rule.unit, raw);
    } else {
      RoundedByItsStep(rule, raw);
      SnappedBelowNothing(Truncated(raw.Real()), Step(rule).value);
    }
  }

  lemma TruncatedBelowNothing(r: real)
    ensures Truncated(r) < 0 <==> r <= -1.0
  {
    FloorIsNearest(r);
    FloorIsNearest(-r);
  }

  lemma SnappedBelowNothing(n: int, step: int)
    requires step > 0
    ensures n - n % step < 0 <==> n < 0
  {
    if n >= 0 {
      SnappedIsMonotone(0, n, step);
    }
  }

  lemma ClampedBelowNothing(unit: Unit, value: Number, floor: Option<Number>, ceiling: Option<Number>)
    requires unit.CountsWhole() && value.Whole?
    requires floor.Some? && ceiling.Some? ==> floor.value.Real() <= ceiling.value.Real()
    ensures Clamped(unit, value, floor, ceiling).0.Real() < 0.0 <==>
            AtMostMinusOne(ceiling) || (value.i < 0 && (floor.None? || AtMostMinusOne(floor)))
  {
    if floor.Some? {
      AsWholeIsTruncated(unit, floor.value);
      TruncatedBelowNothing(floor.value.Real());
    }
    if ceiling.Some? {
      AsWholeIsTruncated(unit, ceiling.value);
      TruncatedBelowNothing(ceiling.value.Real());
    }
  }

  lemma RefusedBelowNothing(rule: Rule, value: Number)
    requires rule.unit.Bytes? && value.Whole?
    ensures Displayed(rule, value) == Err(NegativeBytes(rule)) <==> value.Real() < 0.0
    ensures Displayed(rule, value).Err? ==> value.Real() < 0.0
  {
    TruncatedIsExactOnWholes(value.Real());
    FloorOfWhole(value.i);
    Units.RenderingRefusesExactlyNegatives(value.i);
  }

  /** A rule that sizes bytes as minus one. */
  lemma NegativeBytesEscape(s: Scope)
    ensures var minusOne := Unary(Negate, Constant(Num(Whole(1))));
            var rule := Rule("fixture.c", "c", minusOne, Bytes, None, None, None, None);
            Size(rule, s) == Err(NegativeBytes(rule))
  {
    var minusOne := Unary(Negate, Constant(Num(Whole(1))));
    var rule := Rule("fixture.c", "c", minusOne, Bytes, None, None, None, None);
    assert Check(minusOne).Accepted? && Evaluate(minusOne, s) == Val(Num(Whole(-1)));
    NegativeBytesExactly(rule, Whole(-1));
  }

  /** The threshold is reported exactly when the final value went past it. */
  lemma AdvisoryExactly(rule: Rule, raw: Number)
    requires FitNumber(rule, raw).Ok?
    ensures var sized := FitNumber(rule, raw).value;
            var limit := LimitOf(rule, rule.warnAbove, WarnAbove);
            sized.value.Num?
            && (sized.aboveAdvisory.Some? <==> limit.Some? && limit.value.Real() < sized.value.n.Real())
  {
  }

  lemma RoundedIsMonotone(rule: Rule, a: Number, b: Number)
    requires Rounded(rule, a).Ok? && Rounded(rule, b).Ok? && a.Real() <= b.Real()
    ensures Rounded(rule, a).value.Real() <= Rounded(rule, b).value.Real()
    ensures rule.unit.CountsWhole() ==> Rounded(rule, a).value.Whole? && Rounded(rule, b).value.Whole?
  {
    if rule.roundTo.None? {
      AsWholeIsMonotone(rule.unit, a, b);
    } else {
      RoundedByItsStep(rule, a);
      RoundedByItsStep(rule, b);
      SnappedInOrder(a, b, Step(rule).value);
    }
  }

  /** The multiple of the step at or below a value's whole part. */
  function Snapped(raw: Number, step: int): Number
    requires step > 0
  {
    var n := Truncated(raw.Real());
    Whole(n - n % step)
  }

  lemma SnappedInOrder(a: Number, b: Number, step: int)
    requires step > 0 && a.Real() <= b.Real()
    ensures Snapped(a, step).Real() <= Snapped(b, step).Real()
  {
    TruncatedIsMonotone(a.Real(), b.Real());
    SnappedIsMonotone(Truncated(a.Real()), Truncated(b.Real()), step);
  }

  lemma AsWholeIsMonotone(unit: Unit, a: Number, b: Number)
    requires a.Real() <= b.Real()
    ensures AsWhole(unit, a).Real() <= AsWhole(unit, b).Real()
  {
    if unit.CountsWhole() {
      AsWholeIsTruncated(unit, a);
      AsWholeIsTruncated(unit, b);
      TruncatedIsMonotone(a.Real(), b.Real());
    }
  }

  lemma AsWholeIsTruncated(unit: Unit, n: Number)
    requires unit.CountsWhole()
    ensures AsWhole(unit, n) == Whole(Truncated(n.Real()))
  {
  }

  lemma RoundedByItsStep(rule: Rule, raw: Number)
    requires rule.roundTo.Some? && Rounded(rule, raw).Ok?
    ensures Step(rule).Some? && Step(rule).value > 0
    ensures Rounded(rule, raw).value == Snapped(raw, Step(rule).value)
  {
    var n := Truncated(raw.Real());
    assert AsWhole(rule.unit, raw) == Whole(n);
    assert Whole(n).Real() == n as real;
    FloorOfWhole(n);
    FloorOfWhole(-n);
  }

  lemma BoundedIsMonotone(rule: Rule, a: Number, b: Number)
    requires Bounded(rule, a).Ok? && Bounded(rule, b).Ok? && a.Real() <= b.Real()
    requires rule.unit.CountsWhole() ==> a.Whole? && b.Whole?
    ensures Bounded(rule, a).value.0.Real() <= Bounded(rule, b).value.0.Real()
  {
    ClampedIsMonotone(rule.unit, a, b, LimitOf(rule, rule.minimum, Min), LimitOf(rule, rule.maximum, Max));
  }

  lemma ClampedIsMonotone(unit: Unit, a: Number, b: Number, floor: Option<Number>, ceiling: Option<Number>)
    requires a.Real() <= b.Real() && (unit.CountsWhole() ==> a.Whole? && b.Whole?)
    requires floor.Some? && ceiling.Some? ==> floor.value.Real() <= ceiling.value.Real()
    ensures Clamped(unit, a, floor, ceiling).0.Real() <= Clamped(unit, b, floor, ceiling).0.Real()
  {
    ClampedIsAHeldValue(unit, a, floor, ceiling);
    ClampedIsAHeldValue(unit, b, floor, ceiling);
    AsWholeIsMonotone(unit, HeldValue(a, floor, ceiling), HeldValue(b, floor, ceiling));
  }

  /** The value or the bound that replaces it, before the bound is made whole. */
  function HeldValue(value: Number, floor: Option<Number>, ceiling: Option<Number>): Number {
    if floor.Some? && value.Real() < floor.value.Real() then floor.value
    else if ceiling.Some? && value.Real() > ceiling.value.Real() then ceiling.value
    else value
  }

  lemma ClampedIsAHeldValue(unit: Unit, value: Number, floor: Option<Number>, ceiling: Option<Number>)
    requires unit.CountsWhole() ==> value.Whole?
    ensures Clamped(unit, value, floor, ceiling).0.Real() == AsWhole(unit, HeldValue(value, floor, ceiling)).Real()
  {
  }

  /** A larger raw value never comes out smaller, through rounding and bounds together. */
  lemma FittingIsMonotone(rule: Rule, a: Number, b: Number)
    requires FitNumber(rule, a).Ok? && FitNumber(rule, b).Ok? && a.Real() <= b.Real()
    ensures FitNumber(rule, a).value.value.n.Real() <= FitNumber(rule, b).value.value.n.Real()
  {
    RoundedIsMonotone(rule, a, b);
    BoundedIsMonotone(rule, Rounded(rule, a).value, Rounded(rule, b).value);
  }

  /** Sizing one rule depends on nothing outside the names its formula reads. */
  lemma SizeIsLocal(rule: Rule, s: Scope, t: Scope)
    requires Sound.AgreeOn(Names(rule.expr), s, t)
    ensures Size(rule, s) == Size(rule, t)
  {
    Sound.EvaluationIsLocal(rule.expr, s, t);
  }

  /** A rule that was sized stays sized, to the same value, when more facts are reported,
      provided the comparisons its formula reached were settled. */
  lemma SizeIsMonotone(rule: Rule, s: Scope, t: Scope)
    requires ScopeRefines(s, t) && Monotone.SteadyIfRead(rule.expr, s)
    ensures Size(rule, s).Ok? ==> Size(rule, t) == Size(rule, s)
    ensures Size(rule, s).Err? ==> Size(rule, s).error.Unsized? || Size(rule, t) == Size(rule, s)
  {
    if Check(rule.expr).Accepted? {
      Monotone.SteadyIsMonotone(rule.expr, s, t);
      Sound.AcceptedEvaluationIsExpected(rule.expr, s);
    }
  }
}
