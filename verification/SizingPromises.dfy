// What a rule promises of the value it is sized as: of one rule on one scope, and of every
// result of a whole run.
module SizingPromises {
  import opened Wrappers
  import opened Values
  import opened Expressions
  import opened SizingRules
  import Sizing
  import SizingLaws
  import Units

  // ---------------------------------------------------------------------- what is written

  /** The bound stands for this number, in the unit of its rule. */
  predicate Says(unit: Unit, bound: Bound, n: Number) {
    match bound
    case Figure(m) => n == m
    case YesNo(_) => false
    case Written(text) =>
      var bytes, duration := Units.ParseBytes(text), Units.ParseMilliseconds(text);
      match unit
      case Bytes => n.Whole? && bytes.Ok? && bytes.value == n.i
      case Milliseconds => n.Whole? && duration.Ok? && duration.value == n.i
      case Seconds => n.Whole? && duration.Ok? && duration.value == 1000 * n.i
      case _ => false
  }

  /** A bound is read as the one number it stands for, and is refused by the name of its field
      where it stands for none. */
  lemma BoundsAreRead(rule: Rule, bound: Bound, field: Field)
    ensures forall n :: Quantity(rule, bound, field) == Ok(n) <==> Says(rule.unit, bound, n)
    ensures Quantity(rule, bound, field).Err? ==> Quantity(rule, bound, field).error == SizingError(rule, BadBound(field))
  {
    forall n ensures Quantity(rule, bound, field) == Ok(n) <==> Says(rule.unit, bound, n) {
      if bound.Written? && rule.unit.Seconds? && Units.ParseMilliseconds(bound.text).Ok? && n.Whole? {
        Thousandth(Units.ParseMilliseconds(bound.text).value, n.i);
      }
    }
  }

  lemma Thousandth(ms: int, n: int)
    ensures ms % 1000 == 0 && ms / 1000 == n <==> ms == 1000 * n
  {
  }

  lemma LimitsAreRead(rule: Rule, bound: Option<Bound>, field: Field)
    ensures forall n :: LimitOf(rule, bound, field) == Some(n) <==> bound.Some? && Says(rule.unit, bound.value, n)
    ensures OptionalQuantity(rule, bound, field).Err? <==> bound.Some? && forall n :: !Says(rule.unit, bound.value, n)
  {
    if bound.Some? {
      BoundsAreRead(rule, bound.value, field);
      var q := Quantity(rule, bound.value, field);
      assert q.Ok? ==> Says(rule.unit, bound.value, q.value);
    }
  }

  /** The whole part of a number, which is the nearest whole one toward zero. */
  predicate WholePart(k: int, r: real) {
    (r >= 0.0 ==> k as real <= r < k as real + 1.0) && (r <= 0.0 ==> k as real - 1.0 < r <= k as real)
  }

  lemma TruncatedIsWholePart(r: real)
    ensures forall k :: Truncated(r) == k <==> WholePart(k, r)
  {
    FloorIsNearest(r);
    FloorIsNearest(-r);
    forall k | WholePart(k, r) ensures Truncated(r) == k {
      var d := Truncated(r) - k;
      assert -1.0 < d as real < 1.0;
    }
  }

  lemma StepIsRead(rule: Rule)
    ensures forall k :: Step(rule) == Some(k) <==>
              rule.roundTo.Some? && exists q :: Says(rule.unit, rule.roundTo.value, q) && WholePart(k, q.Real())
  {
    if rule.roundTo.Some? {
      BoundsAreRead(rule, rule.roundTo.value, RoundTo);
      var read := Quantity(rule, rule.roundTo.value, RoundTo);
      if read.Ok? {
        TruncatedIsWholePart(read.value.Real());
        assert Says(rule.unit, rule.roundTo.value, read.value);
        forall k ensures Step(rule) == Some(k) <==> exists q :: Says(rule.unit, rule.roundTo.value, q) && WholePart(k, q.Real()) {
          forall q | Says(rule.unit, rule.roundTo.value, q) ensures q == read.value {
            assert Quantity(rule, rule.roundTo.value, RoundTo) == Ok(q);
          }
        }
      }
    }
  }

  // ---------------------------------------------------------------------- what is promised

  ghost predicate MadeWhole(unit: Unit, n: Number, v: Number) {
    if unit.CountsWhole() then v.Whole? && WholePart(v.i, n.Real()) else v == n
  }

  /** The step the rule rounds to: one where none is asked for. */
  function StepOf(rule: Rule): int {
    if rule.roundTo.None? || Step(rule).None? then 1 else Step(rule).value
  }

  /** What counts in wholes comes to the greatest multiple of its step that is not above the
      whole part of the raw value; anything else is left as it is. */
  ghost predicate RoundedAs(rule: Rule, raw: Number, v: Number) {
    if rule.unit.CountsWhole() then
      v.Whole? && StepOf(rule) > 0 && exists n | WholePart(n, raw.Real()) :: GreatestMultiple(v.i, StepOf(rule), n as real)
    else v == raw && rule.roundTo.None?
  }

  /** A floor that is above the value or a ceiling that is below it is named and takes its
      place; without either the value stays. */
  ghost predicate HeldAs(unit: Unit, rounded: Number, floor: Option<Number>, ceiling: Option<Number>, v: Number, held: Held) {
    && (held == AtMin <==> floor.Some? && rounded.Real() < floor.value.Real())
    && (held == AtMax <==> ceiling.Some? && ceiling.value.Real() < rounded.Real())
    && (held == Free ==> v == rounded)
    && (held == AtMin ==> MadeWhole(unit, floor.value, v))
    && (held == AtMax ==> MadeWhole(unit, ceiling.value, v))
  }

  /** A threshold is reported exactly when the value went past it. */
  ghost predicate AdvisedAs(unit: Unit, v: Number, limit: Option<Number>, above: Option<Number>) {
    && (above.Some? <==> limit.Some? && limit.value.Real() < v.Real())
    && (above.Some? ==> MadeWhole(unit, limit.value, above.value))
  }

  /** A size in bytes is shown as a text that reads back, anything else as the figure it is. */
  ghost predicate ShownAs(unit: Unit, v: Number, display: Display) {
    if unit.Bytes? then v.Whole? && v.i >= 0 && display.AsBytes? && Units.ReadsBackAs(display.text, v.i)
    else display == AsFigure(v, unit)
  }

  /** A result keeps everything its rule promises of a formula that came to `raw`. */
  ghost predicate Kept(rule: Rule, raw: Number, sized: Sized) {
    && sized.parameter == rule.parameter && sized.rule == rule.identifier && sized.unit == rule.unit && sized.value.Num?
    && (exists rounded: Number ::
          RoundedAs(rule, raw, rounded)
          && HeldAs(rule.unit, rounded, LimitOf(rule, rule.minimum, Min), LimitOf(rule, rule.maximum, Max), sized.value.n, sized.boundedBy))
    && AdvisedAs(rule.unit, sized.value.n, LimitOf(rule, rule.warnAbove, WarnAbove), sized.aboveAdvisory)
    && ShownAs(rule.unit, sized.value.n, sized.display)
  }

  /** Inside the limits, where they are whole and the raw value is not negative; and the
      greatest multiple of the step not above that value where neither of them held it. */
  ghost predicate InsideLimits(rule: Rule, raw: Number, sized: Sized) {
    var floor, ceiling := LimitOf(rule, rule.minimum, Min), LimitOf(rule, rule.maximum, Max);
    rule.unit.CountsWhole() && raw.Real() >= 0.0 && WholeLimit(floor) && WholeLimit(ceiling) ==>
      && sized.value.Num? && sized.value.n.Whole? && Within(sized.value.n, floor, ceiling)
      && (sized.boundedBy == Free ==> StepOf(rule) > 0 && GreatestMultiple(sized.value.n.i, StepOf(rule), raw.Real()))
  }

  lemma RoundedAsPromised(rule: Rule, raw: Number)
    requires Rounded(rule, raw).Ok?
    ensures RoundedAs(rule, raw, Rounded(rule, raw).value)
  {
    if rule.unit.CountsWhole() {
      var n, v := Truncated(raw.Real()), Rounded(rule, raw).value;
      TruncatedIsWholePart(raw.Real());
      AsWholeIsTruncated(rule.unit, raw);
      if rule.roundTo.Some? {
        RoundedByItsStep(rule, raw);
        SnappedIsMultiple(n, StepOf(rule));
      }
      NothingBetweenMultiples(v.i, StepOf(rule), n as real);
      assert WholePart(n, raw.Real());
    }
  }

  lemma MadeWholeIsTruncated(unit: Unit, n: Number)
    ensures MadeWhole(unit, n, AsWhole(unit, n))
  {
    if unit.CountsWhole() {
      TruncatedIsWholePart(n.Real());
      AsWholeIsTruncated(unit, n);
    }
  }

  lemma HeldAsPromised(rule: Rule, value: Number)
    requires Bounded(rule, value).Ok?
    ensures var (v, held) := Bounded(rule, value).value;
            HeldAs(rule.unit, value, LimitOf(rule, rule.minimum, Min), LimitOf(rule, rule.maximum, Max), v, held)
  {
    BoundIsTheOnePassed(rule, value);
    var floor, ceiling := LimitOf(rule, rule.minimum, Min), LimitOf(rule, rule.maximum, Max);
    if floor.Some? {
      MadeWholeIsTruncated(rule.unit, floor.value);
    }
    if ceiling.Some? {
      MadeWholeIsTruncated(rule.unit, ceiling.value);
    }
  }

  lemma AdvisedAsPromised(rule: Rule, value: Number)
    requires Advisory(rule, value).Ok?
    ensures AdvisedAs(rule.unit, value, LimitOf(rule, rule.warnAbove, WarnAbove), Advisory(rule, value).value)
  {
    var limit := LimitOf(rule, rule.warnAbove, WarnAbove);
    if limit.Some? {
      MadeWholeIsTruncated(rule.unit, limit.value);
    }
  }

  lemma FitKeepsPromises(rule: Rule, raw: Number)
    requires FitNumber(rule, raw).Ok?
    ensures Kept(rule, raw, FitNumber(rule, raw).value)
  {
    var rounded := Rounded(rule, raw).value;
    RoundedAsPromised(rule, raw);
    HeldAsPromised(rule, rounded);
    AdvisedAsPromised(rule, Bounded(rule, rounded).value.0);
    if rule.unit.Bytes? {
      DisplayReadsBack(rule, raw);
    }
  }

  lemma FitIsInsideLimits(rule: Rule, raw: Number)
    requires FitNumber(rule, raw).Ok?
    ensures InsideLimits(rule, raw, FitNumber(rule, raw).value)
  {
    var floor, ceiling := LimitOf(rule, rule.minimum, Min), LimitOf(rule, rule.maximum, Max);
    if rule.unit.CountsWhole() && raw.Real() >= 0.0 && WholeLimit(floor) && WholeLimit(ceiling) {
      FittedAsPromised(rule, raw);
    }
  }

  /** The formula of the rule was accepted and came to this. */
  ghost predicate CameTo(rule: Rule, s: Scope, raw: Value) {
    Check(rule.expr).Accepted? && Evaluate(rule.expr, s) == Val(raw)
  }

  /** Whatever a rule is sized as keeps what the rule promises: rounded to its step, held by
      its limits, its threshold and its text said of the value that came out of them; of a
      formula that came to a number, and of nothing else. */
  lemma SizedAsPromised(rule: Rule, s: Scope)
    requires !rule.unit.Words? && Size(rule, s).Ok?
    ensures Evaluate(rule.expr, s).Val? && Evaluate(rule.expr, s).value.Num?
    ensures var raw := Evaluate(rule.expr, s).value.n;
            CameTo(rule, s, Num(raw)) && Kept(rule, raw, Size(rule, s).value) && InsideLimits(rule, raw, Size(rule, s).value)
  {
    var raw := Evaluate(rule.expr, s).value.n;
    SizedByFitting(rule, s, raw);
    FitKeepsPromises(rule, raw);
    FitIsInsideLimits(rule, raw);
  }

  lemma SizedByFitting(rule: Rule, s: Scope, raw: Number)
    requires !rule.unit.Words? && CameTo(rule, s, Num(raw))
    ensures Size(rule, s) == FitNumber(rule, raw)
  {
  }

  /** A rule whose unit is words is sized as the text its formula comes to, and only where it
      is a text and nothing that needs a number is asked for. */
  lemma WordsAreSizedExactly(rule: Rule, s: Scope)
    requires rule.unit.Words?
    ensures Size(rule, s).Ok? <==>
            (exists text :: CameTo(rule, s, Text(text)))
            && rule.minimum == None && rule.maximum == None && rule.roundTo == None && rule.warnAbove == None
    ensures Size(rule, s).Ok? ==> WordsKept(rule, s, Size(rule, s).value)
  {
    if Check(rule.expr).Accepted? && Evaluate(rule.expr, s).Val? && Evaluate(rule.expr, s).value.Text? {
      assert CameTo(rule, s, Text(Evaluate(rule.expr, s).value.s));
    }
  }

  ghost predicate WordsKept(rule: Rule, s: Scope, sized: Sized) {
    && sized.parameter == rule.parameter && sized.rule == rule.identifier && sized.unit == rule.unit
    && sized.value.Text? && CameTo(rule, s, sized.value) && sized.display == AsWords(sized.value.s)
    && sized.boundedBy == Free && sized.aboveAdvisory == None
  }

  // ------------------------------------------------------------------------ what is refused

  ghost predicate Readable(rule: Rule, bound: Option<Bound>) {
    bound.Some? ==> exists n :: Says(rule.unit, bound.value, n)
  }

  /** A formula that came to a number is sized exactly when the fields of its rule can be read
      and agree, rounding is asked for only of what counts in wholes, and no size in bytes
      would be negative. */
  lemma NumbersAreSizedExactly(rule: Rule, s: Scope, raw: Number)
    requires !rule.unit.Words? && CameTo(rule, s, Num(raw))
    ensures Size(rule, s).Ok? <==>
            && Agrees(rule) && Readable(rule, rule.warnAbove)
            && !(rule.unit.Bytes? && BelowNothing(rule, raw))
  {
    SizedByFitting(rule, s, raw);
    LimitsAreRead(rule, rule.minimum, Min);
    LimitsAreRead(rule, rule.maximum, Max);
    LimitsAreRead(rule, rule.warnAbove, WarnAbove);
    AgreesExactly(rule, raw);
    if rule.unit.Bytes? {
      NegativeBytesExactly(rule, raw);
    }
    FitsExactly(rule, raw);
  }

  /** The fields that rounding and holding need can be read, and the limits are in order. */
  ghost predicate Agrees(rule: Rule) {
    && (rule.roundTo.Some? ==> rule.unit.CountsWhole() && Step(rule).Some? && Step(rule).value > 0)
    && Readable(rule, rule.minimum) && Readable(rule, rule.maximum)
    && var floor, ceiling := LimitOf(rule, rule.minimum, Min), LimitOf(rule, rule.maximum, Max);
       floor.Some? && ceiling.Some? ==> floor.value.Real() <= ceiling.value.Real()
  }

  /** A ceiling of minus one or less, or a raw value that low and no higher floor. */
  ghost predicate BelowNothing(rule: Rule, raw: Number) {
    var floor, ceiling := LimitOf(rule, rule.minimum, Min), LimitOf(rule, rule.maximum, Max);
    AtMostMinusOne(ceiling) || (raw.Real() <= -1.0 && (floor.None? || AtMostMinusOne(floor)))
  }

  lemma AgreesExactly(rule: Rule, raw: Number)
    ensures Rounded(rule, raw).Ok? && Bounded(rule, Rounded(rule, raw).value).Ok? <==> Agrees(rule)
    ensures rule.unit.CountsWhole() ==> (WellLimited(rule) <==> Agrees(rule))
  {
    LimitsAreRead(rule, rule.minimum, Min);
    LimitsAreRead(rule, rule.maximum, Max);
  }

  lemma FitsExactly(rule: Rule, raw: Number)
    ensures FitNumber(rule, raw).Ok? <==>
            && Rounded(rule, raw).Ok? && Bounded(rule, Rounded(rule, raw).value).Ok?
            && OptionalQuantity(rule, rule.warnAbove, WarnAbove).Ok?
            && FitNumber(rule, raw) != Err(NegativeBytes(rule))
  {
  }

  /** What a refusal says is wrong with the rule is wrong with it. */
  ghost predicate True(rule: Rule, detail: Detail) {
    match detail
    case NoRounding => rule.roundTo.Some? && !rule.unit.CountsWhole()
    case RoundsToZero => Step(rule).Some? && Step(rule).value <= 0
    case MinAboveMax =>
      && LimitOf(rule, rule.minimum, Min).Some? && LimitOf(rule, rule.maximum, Max).Some?
      && LimitOf(rule, rule.minimum, Min).value.Real() > LimitOf(rule, rule.maximum, Max).value.Real()
    case BadBound(field) => !Readable(rule, FieldOf(rule, field))
    case _ => false
  }

  lemma UnreadIsTrue(rule: Rule, field: Field)
    ensures var read := OptionalQuantity(rule, FieldOf(rule, field), field);
            read.Err? ==> read.error == SizingError(rule, BadBound(field)) && True(rule, BadBound(field))
  {
    LimitsAreRead(rule, FieldOf(rule, field), field);
    if FieldOf(rule, field).Some? {
      BoundsAreRead(rule, FieldOf(rule, field).value, field);
    }
  }

  lemma FittingRefusalsAreTrue(rule: Rule, raw: Number, detail: Detail)
    requires FitNumber(rule, raw) == Err(SizingError(rule, detail))
    ensures True(rule, detail)
  {
    UnreadIsTrue(rule, RoundTo);
    UnreadIsTrue(rule, Min);
    UnreadIsTrue(rule, Max);
    UnreadIsTrue(rule, WarnAbove);
    RefusedWhere(rule, raw);
  }

  lemma RefusedWhere(rule: Rule, raw: Number)
    ensures Rounded(rule, raw).Err? ==>
              || (rule.roundTo.Some? && !rule.unit.CountsWhole() && Rounded(rule, raw) == Err(SizingError(rule, NoRounding)))
              || (Step(rule).Some? && Step(rule).value <= 0 && Rounded(rule, raw) == Err(SizingError(rule, RoundsToZero)))
              || (OptionalQuantity(rule, rule.roundTo, RoundTo).Err?
                  && Rounded(rule, raw).error == OptionalQuantity(rule, rule.roundTo, RoundTo).error)
  {
  }

  /** A refusal of a formula is what checking or evaluating it came to, and any other is true
      of the fields of its rule. */
  lemma RefusalsAreTrue(rule: Rule, s: Scope, detail: Detail)
    requires Size(rule, s) == Err(SizingError(rule, detail))
    ensures match detail
            case Unreadable(culprit) => Check(rule.expr) == Refused(culprit)
            case Failed(fault) => Evaluate(rule.expr, s) == Wrong(fault)
            case NotAFigure => !rule.unit.Words? && exists v: Value :: CameTo(rule, s, v) && !v.Num?
            case NotText => rule.unit.Words? && exists v: Value :: CameTo(rule, s, v) && !v.Text?
            case NoUseFor(field) => rule.unit.Words? && FieldOf(rule, field).Some?
            case _ => !rule.unit.Words? && True(rule, detail)
  {
    if Check(rule.expr).Accepted? && Evaluate(rule.expr, s).Val? {
      var v := Evaluate(rule.expr, s).value;
      assert CameTo(rule, s, v);
      if !rule.unit.Words? && v.Num? {
        SizedByFitting(rule, s, v.n);
        FittingRefusalsAreTrue(rule, v.n, detail);
      }
    }
  }

  function FieldOf(rule: Rule, field: Field): Option<Bound> {
    match field
    case Min => rule.minimum
    case Max => rule.maximum
    case RoundTo => rule.roundTo
    case WarnAbove => rule.warnAbove
  }

  // --------------------------------------------------------------------------- a whole run

  /** The result keeps what its rule promises, on the scope the rule was sized on. */
  ghost predicate RuleKept(rule: Rule, s: Scope, sized: Sized) {
    if rule.unit.Words? then WordsKept(rule, s, sized)
    else exists raw :: CameTo(rule, s, Num(raw)) && Kept(rule, raw, sized) && InsideLimits(rule, raw, sized)
  }

  /** Every result of a run, in the order of the file, keeps what its rule promises on the
      scope that has the final value of every parameter in it. */
  lemma RunKeepsPromises(rules: seq<Rule>, scope: Scope)
    requires SizingLaws.Distinct(rules) && Sizing.EvaluateRules(rules, scope).Ok?
    ensures var results := Sizing.EvaluateRules(rules, scope).value;
            exists values ::
              SizingLaws.SelfConsistent(Size, rules, scope, results, values)
              && forall i | 0 <= i < |rules| :: RuleKept(rules[i], scope + values, results[i])
  {
    SizingLaws.SizingIsLocal();
    var results := Sizing.EvaluateRules(rules, scope).value;
    var values := SizingLaws.RunIsSelfConsistent(Size, rules, scope);
    forall i | 0 <= i < |rules| ensures RuleKept(rules[i], scope + values, results[i]) {
      OneRuleKept(rules[i], scope + values);
    }
  }

  lemma OneRuleKept(rule: Rule, s: Scope)
    requires Size(rule, s).Ok?
    ensures RuleKept(rule, s, Size(rule, s).value)
  {
    if rule.unit.Words? {
      WordsAreSizedExactly(rule, s);
    } else {
      SizedAsPromised(rule, s);
      assert CameTo(rule, s, Num(Evaluate(rule.expr, s).value.n));
    }
  }
}
