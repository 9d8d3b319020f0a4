// When a check fails, when it was not observed and when it stops the run: the outcomes beside
// a pass, in terms of what was promised and what was read.
module VerifyOutcomes {
  import opened Wrappers
  import opened Values
  import opened Expressions
  import opened VerifyModel
  import opened Verify
  import opened VerifyLaws
  import Operators = ExpressionOperators

  /** A value read back is the one promised: a yes or a no that very one, numbers by size,
      anything else where the language calls them equal. */
  ghost predicate Alike(v: Value, w: Value) {
    if v.Bool? || w.Bool? then v == w
    else if v.Num? && w.Num? then v.n.Real() == w.n.Real()
    else Operators.Holds(Eq, v, w)
  }

  ghost predicate Found(settings: map<string, Value>, name: string, v: Value) {
    name in settings && Alike(settings[name], v)
  }

  ghost predicate FoundElse(settings: map<string, Value>, name: string, v: Value) {
    name in settings && !Alike(settings[name], v)
  }

  lemma AlikeIsSame(v: Value, w: Value)
    ensures Same(v, w) <==> Alike(v, w)
  {
  }

  lemma ReadsBackExactly(settings: map<string, Value>, entry: (string, Value))
    ensures ReadsBack(settings, entry) <==> Found(settings, entry.0, entry.1)
  {
    if entry.0 in settings {
      AlikeIsSame(settings[entry.0], entry.1);
    }
  }

  /** What creating the instance was read to have taken for a name: its locale for that, where
      the reading has one, and the setting of the name otherwise. */
  function Taken(reading: InitializationReading, name: string): Option<Value> {
    if name == "locale" && reading.locale.Some? then Some(Text(reading.locale.value))
    else if name in reading.settings then Some(reading.settings[name])
    else None
  }

  /** What was promised for a name: the locale, or the last setting of that name. */
  ghost predicate Wants(promised: Promised, name: string, v: Value) {
    if name == "locale" && promised.locale.Some? then v == Text(promised.locale.value)
    else exists i | 0 <= i < |promised.settings| :: promised.settings[i] == (name, v) && LastSaid(promised.settings, i)
  }

  ghost predicate TakenElse(promised: Promised, reading: InitializationReading, name: string, v: Value) {
    Wants(promised, name, v) && Taken(reading, name).Some? && !Alike(Taken(reading, name).value, v)
  }

  /** What was read of the kind contradicts what was promised of it. */
  ghost predicate Broken(kind: Kind, plan: Plan, o: Observation) {
    match kind
    case Service => plan.service.Some? && o.service.Some? && o.service.value != ServiceReading(plan.service.value, true, true)
    case Port =>
      plan.port.Some? && o.port.Some?
      && (|o.port.value| == 0 || exists i | 0 <= i < |o.port.value| :: o.port.value[i].port != plan.port.value)
    case Connection => o.connection.Some? && !o.connection.value.accepted
    case Version => plan.version.Some? && o.version.Some? && o.version.value.major != plan.version.value
    case Parameters => |plan.parameters| > 0 && o.parameters.Some? && ParametersBroken(plan, o.parameters.value)
    case Paths =>
      o.paths.Some? && exists i | 0 <= i < |plan.paths| ::
        LastSaid(plan.paths, i) && plan.paths[i].0 in o.paths.value && o.paths.value[plan.paths[i].0] != plan.paths[i].1
    case Log => o.log.Some? && !(o.log.value.exists_ && o.log.value.writtenSinceStart)
    case Backup => o.backup.Some? && !o.backup.value.writable
    case Auth => o.auth.Some? && exists r | r in o.auth.value :: !r.passwordRequired && !r.local
    case Account => o.account.Some? && exists r | r in o.account.value :: r.canLogin && !r.passwordSet
    case Initialization =>
      plan.initialization.Some? && o.initialization.Some?
      && exists name, v :: TakenElse(plan.initialization.value, o.initialization.value, name, v)
  }

  /** The server has no setting of some name, or every parameter was asked for and one of them
      read back as something else. */
  ghost predicate ParametersBroken(plan: Plan, reading: ParametersReading) {
    || (reading.unknown.Some? && reading.unknown.value != [])
    || ((forall e | e in plan.parameters :: e.0 in reading.settings)
        && exists e | e in plan.parameters :: FoundElse(reading.settings, e.0, e.1))
  }

  lemma ParametersFailExactly(plan: Plan, reading: ParametersReading)
    requires |plan.parameters| > 0
    ensures JudgeParameters(plan, reading) == Fail <==> ParametersBroken(plan, reading)
  {
    forall e | e in plan.parameters
      ensures Asked(reading.settings, e) && !ReadsBack(reading.settings, e) <==> FoundElse(reading.settings, e.0, e.1)
    {
      ReadsBackExactly(reading.settings, e);
    }
  }

  lemma PathsFailExactly(plan: Plan, resolved: map<string, string>)
    ensures JudgePaths(plan, resolved) == Fail <==>
            exists i | 0 <= i < |plan.paths| ::
              LastSaid(plan.paths, i) && plan.paths[i].0 in resolved && resolved[plan.paths[i].0] != plan.paths[i].1
  {
    var planned := Mapped(plan.paths);
    forall i | 0 <= i < |plan.paths| && LastSaid(plan.paths, i)
      ensures plan.paths[i].0 in planned && planned[plan.paths[i].0] == plan.paths[i].1
    {
      MappedIsLastSaid(plan.paths, i);
    }
    if p :| p in planned && p in resolved && resolved[p] != planned[p] {
      var i := MappedComesFrom(plan.paths, p);
      assert LastSaid(plan.paths, i);
    }
  }

  lemma PortFailsExactly(plan: Plan, bound: seq<Socket>)
    requires plan.port.Some?
    ensures JudgePort(plan, bound) == Fail <==>
            |bound| == 0 || exists i | 0 <= i < |bound| :: bound[i].port != plan.port.value
  {
    PortIsExact(plan, bound);
  }

  lemma TakenExactly(reading: InitializationReading, name: string)
    ensures var found := WithLocale(reading.settings, reading.locale);
            Taken(reading, name) == if name in found then Some(found[name]) else None
  {
  }

  lemma WantedExactly(promised: Promised, name: string)
    ensures forall v :: Wants(promised, name, v) <==> name in Wanted(promised) && Wanted(promised)[name] == v
  {
    forall v ensures Wants(promised, name, v) <==> name in Wanted(promised) && Wanted(promised)[name] == v {
      if name != "locale" || promised.locale.None? {
        if name in Mapped(promised.settings) {
          var i := MappedComesFrom(promised.settings, name);
          assert promised.settings[i] == (name, Mapped(promised.settings)[name]);
        }
        if i :| 0 <= i < |promised.settings| && promised.settings[i] == (name, v) && LastSaid(promised.settings, i) {
          MappedIsLastSaid(promised.settings, i);
        }
      }
    }
  }

  lemma InitializationFailsExactly(plan: Plan, reading: InitializationReading)
    requires plan.initialization.Some?
    ensures JudgeInitialization(plan, reading) == Fail <==>
            exists name, v :: TakenElse(plan.initialization.value, reading, name, v)
  {
    var promised := plan.initialization.value;
    var wanted, found := Wanted(promised), WithLocale(reading.settings, reading.locale);
    forall name, v ensures TakenElse(promised, reading, name, v) <==>
                           name in wanted && wanted[name] == v && name in found && !Same(found[name], v) {
      TakenExactly(reading, name);
      WantedExactly(promised, name);
      if name in found {
        AlikeIsSame(found[name], v);
      }
    }
    if n :| n in wanted && n in found && !Same(found[n], wanted[n]) {
      assert TakenElse(promised, reading, n, wanted[n]);
    }
  }

  /** A kind fails exactly when what was read contradicts what was promised, and passes exactly
      when it keeps it; anything else is not a verdict. */
  lemma FailureIsExact(kind: Kind, plan: Plan, o: Observation)
    ensures Judge(kind, plan, o) == Some(Fail) <==> Broken(kind, plan, o)
    ensures Judge(kind, plan, o) == Some(Pass) <==> VerifyLaws.Kept(kind, plan, o)
  {
    JudgementIsExact(kind, plan, o);
    match kind
    case Port => if plan.port.Some? && o.port.Some? { PortFailsExactly(plan, o.port.value); }
    case Parameters => if |plan.parameters| > 0 && o.parameters.Some? { ParametersFailExactly(plan, o.parameters.value); }
    case Paths => if o.paths.Some? { PathsFailExactly(plan, o.paths.value); }
    case Initialization =>
      if plan.initialization.Some? && o.initialization.Some? { InitializationFailsExactly(plan, o.initialization.value); }
    case _ =>
  }

  /** The check has a condition, and the language comes to this on it. */
  ghost predicate Answers(check: VerifyCheck, s: Scope, answer: Expressions.Outcome<bool>) {
    check.expr.Some? && Check(check.expr.value).Accepted? && TruthOf(check.expr.value, s) == answer
  }

  ghost predicate Wanting(check: VerifyCheck, s: Scope) {
    check.expr.Some? && Check(check.expr.value).Accepted? && TruthOf(check.expr.value, s).Missing?
  }

  /** The outcome of a check and each of the errors that stop a run, exactly: a failed kind or
      a condition that says no fails; what is neither kept nor contradicted, or a condition
      that lacks a reading, was not observed; and a condition is asked only of a kept promise. */
  lemma OutcomesAreExact(check: VerifyCheck, plan: Plan, o: Observation)
    ensures var s := VerificationScope(plan, o);
            var outcome, kept, broken := CheckOutcome(check, plan, o, s), VerifyLaws.Kept(check.kind, plan, o), Broken(check.kind, plan, o);
            && (outcome == Ok(Pass) <==> kept && (check.expr.None? || Answers(check, s, Val(true))))
            && (outcome == Ok(Fail) <==> broken || (kept && Answers(check, s, Val(false))))
            && (outcome == Ok(Unobserved) <==> (!kept && !broken) || (kept && Wanting(check, s)))
            && (forall fault :: outcome == Err(BadCondition(check, fault)) <==> kept && Answers(check, s, Wrong(fault)))
            && (forall panic :: outcome == Err(VerifyError.Escaped(panic)) <==> kept && Answers(check, s, Crash(panic)))
  {
    FailureIsExact(check.kind, plan, o);
  }

  /** A run is about another plan, or about another host, exactly so, and says which. */
  lemma StrangersAreTurnedAway(plan: Plan, checks: seq<VerifyCheck>, o: Observation)
    ensures Run(plan, checks, o) == Err(OtherPlan) <==> o.planId != plan.planId
    ensures Run(plan, checks, o) == Err(OtherHost) <==> o.planId == plan.planId && o.host != plan.host
  {
    NoCheckIsAStranger(checks, plan, o, VerificationScope(plan, o));
  }

  lemma {:induction false} NoCheckIsAStranger(checks: seq<VerifyCheck>, plan: Plan, o: Observation, s: Scope)
    ensures RunChecks(checks, plan, o, s).Err? ==> RunChecks(checks, plan, o, s).error !in {OtherPlan, OtherHost}
  {
    if checks != [] {
      NoCheckIsAStranger(checks[1..], plan, o, s);
    }
  }

  /** Every check has its result in its place. */
  lemma EveryCheckIsReported(plan: Plan, checks: seq<VerifyCheck>, o: Observation)
    requires Run(plan, checks, o).Ok?
    ensures var results := Run(plan, checks, o).value;
            |results| == |checks|
            && forall i | 0 <= i < |checks| ::
                 results[i].identifier == checks[i].identifier && results[i].kind == checks[i].kind
                 && Ok(results[i].outcome) == CheckOutcome(checks[i], plan, o, VerificationScope(plan, o))
  {
    CheckAllAnswers(checks, plan, o, VerificationScope(plan, o));
  }
}
