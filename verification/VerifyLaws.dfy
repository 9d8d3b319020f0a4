// What a verified run proves, what it does not, and what can only narrow it.
module VerifyLaws {
  import opened Wrappers
  import opened Values
  import opened Expressions
  import opened VerifyModel
  import opened Verify
  import ScopeBuilder
  import Monotone = ExpressionMonotone

  // --------------------------------------------------------------------- what was proved

  /** The promise of one kind, kept: what has to be true of the plan and the reading,
      entry by entry, for the kind to have been proved. */
  ghost predicate Kept(kind: Kind, plan: Plan, o: Observation) {
    match kind
    case Service =>
      plan.service.Some? && o.service == Some(ServiceReading(plan.service.value, true, true))
    case Port =>
      plan.port.Some? && o.port.Some? && |o.port.value| > 0
      && forall i | 0 <= i < |o.port.value| :: o.port.value[i].port == plan.port.value
    case Connection => o.connection.Some? && o.connection.value.accepted
    case Version => plan.version.Some? && o.version.Some? && o.version.value.major == plan.version.value
    case Parameters =>
      |plan.parameters| > 0 && o.parameters.Some? && |Named(o.parameters.value.unknown)| == 0
      && forall i | 0 <= i < |plan.parameters| :: ReadsBack(o.parameters.value.settings, plan.parameters[i])
    case Paths =>
      |plan.paths| > 0 && o.paths.Some? && |o.paths.value| > 0
      && forall i | 0 <= i < |plan.paths| && LastSaid(plan.paths, i) && plan.paths[i].0 in o.paths.value ::
           o.paths.value[plan.paths[i].0] == plan.paths[i].1
    case Log => o.log.Some? && o.log.value.exists_ && o.log.value.writtenSinceStart
    case Backup => o.backup.Some? && o.backup.value.writable
    case Auth =>
      o.auth.Some? && |o.auth.value| > 0
      && forall i | 0 <= i < |o.auth.value| :: o.auth.value[i].passwordRequired || o.auth.value[i].local
    case Account =>
      o.account.Some? && |o.account.value| > 0
      && forall i | 0 <= i < |o.account.value| :: !o.account.value[i].canLogin || o.account.value[i].passwordSet
    case Initialization =>
      plan.initialization.Some? && o.initialization.Some?
      && InitializationKept(plan.initialization.value, o.initialization.value)
  }

  /** The entry is the last to speak for its name. */
  ghost predicate LastSaid<V>(pairs: seq<(string, V)>, i: nat)
    requires i < |pairs|
  {
    forall j | i < j < |pairs| :: pairs[j].0 != pairs[i].0
  }

  /** The locale reads back if one was promised, and so does every setting the locale does
      not speak for. */
  ghost predicate InitializationKept(promised: Promised, reading: InitializationReading) {
    var found := WithLocale(reading.settings, reading.locale);
    && (promised.locale.Some? ==> "locale" in found && Same(found["locale"], Text(promised.locale.value)))
    && forall i | 0 <= i < |promised.settings| && LastSaid(promised.settings, i)
                  && (promised.settings[i].0 == "locale" ==> promised.locale.None?) ::
         ReadsBack(found, promised.settings[i])
  }

  lemma {:induction false} MappedIsLastSaid<V>(pairs: seq<(string, V)>, i: nat)
    requires i < |pairs| && LastSaid(pairs, i)
    ensures pairs[i].0 in Mapped(pairs) && Mapped(pairs)[pairs[i].0] == pairs[i].1
  {
    var n := |pairs| - 1;
    if i < n {
      var front := pairs[..n];
      assert front[i] == pairs[i] && pairs[n].0 != pairs[i].0;
      assert LastSaid(front, i) by {
        forall j | i < j < |front| ensures front[j].0 != front[i].0 { assert pairs[j].0 != pairs[i].0; }
      }
      MappedIsLastSaid(front, i);
    }
  }

  lemma {:induction false} MappedComesFrom<V>(pairs: seq<(string, V)>, name: string) returns (i: nat)
    requires name in Mapped(pairs)
    ensures i < |pairs| && LastSaid(pairs, i) && pairs[i].0 == name && pairs[i].1 == Mapped(pairs)[name]
  {
    var n := |pairs| - 1;
    if pairs[n].0 == name {
      i := n;
    } else {
      i := MappedComesFrom(pairs[..n], name);
      forall j | i < j < |pairs| ensures pairs[j].0 != pairs[i].0 {
        assert j < n ==> pairs[..n][j] == pairs[j];
      }
    }
  }

  lemma PathsAreExact(plan: Plan, resolved: map<string, string>)
    ensures JudgePaths(plan, resolved) == Pass <==>
            |plan.paths| > 0 && |resolved| > 0
            && forall i | 0 <= i < |plan.paths| && LastSaid(plan.paths, i) && plan.paths[i].0 in resolved ::
                 resolved[plan.paths[i].0] == plan.paths[i].1
  {
    var planned := Mapped(plan.paths);
    if exists p :: p in planned && p in resolved && resolved[p] != planned[p] {
      var p :| p in planned && p in resolved && resolved[p] != planned[p];
      var i := MappedComesFrom(plan.paths, p);
    } else {
      forall i | 0 <= i < |plan.paths| && LastSaid(plan.paths, i) && plan.paths[i].0 in resolved
        ensures resolved[plan.paths[i].0] == plan.paths[i].1
      {
        MappedIsLastSaid(plan.paths, i);
      }
    }
  }

  /** The settings that were asked for, one by one, against the merged mapping. */
  lemma WantedSays(promised: Promised, found: map<string, Value>)
    ensures (forall n | n in Wanted(promised) :: n in found && Same(found[n], Wanted(promised)[n])) <==>
            (&& (promised.locale.Some? ==> "locale" in found && Same(found["locale"], Text(promised.locale.value)))
             && forall i | 0 <= i < |promised.settings| && LastSaid(promised.settings, i)
                           && (promised.settings[i].0 == "locale" ==> promised.locale.None?) ::
                  ReadsBack(found, promised.settings[i]))
  {
    var wanted := Wanted(promised);
    if forall n | n in wanted :: n in found && Same(found[n], wanted[n]) {
      forall i | 0 <= i < |promised.settings| && LastSaid(promised.settings, i)
                 && (promised.settings[i].0 == "locale" ==> promised.locale.None?)
        ensures ReadsBack(found, promised.settings[i])
      {
        MappedIsLastSaid(promised.settings, i);
        assert promised.settings[i].0 in wanted;
      }
    } else {
      var n :| n in wanted && !(n in found && Same(found[n], wanted[n]));
      if !(n == "locale" && promised.locale.Some?) {
        var i := MappedComesFrom(promised.settings, n);
        assert !ReadsBack(found, promised.settings[i]);
      }
    }
  }

  lemma InitializationIsExact(plan: Plan, reading: InitializationReading)
    requires plan.initialization.Some?
    ensures JudgeInitialization(plan, reading) == Pass <==> InitializationKept(plan.initialization.value, reading)
  {
    var found := WithLocale(reading.settings, reading.locale);
    var wanted := Wanted(plan.initialization.value);
    WantedSays(plan.initialization.value, found);
    if forall n | n in wanted :: n in found && Same(found[n], wanted[n]) {
      assert JudgeInitialization(plan, reading) == Pass;
    } else {
      var n :| n in wanted && !(n in found && Same(found[n], wanted[n]));
      assert JudgeInitialization(plan, reading) != Pass;
    }
  }

  lemma ParametersAreExact(plan: Plan, reading: ParametersReading)
    ensures JudgeParameters(plan, reading) == Pass <==>
            |plan.parameters| > 0 && |Named(reading.unknown)| == 0
            && forall i | 0 <= i < |plan.parameters| :: ReadsBack(reading.settings, plan.parameters[i])
  {
    if forall i | 0 <= i < |plan.parameters| :: ReadsBack(reading.settings, plan.parameters[i]) {
      forall e | e in plan.parameters ensures ReadsBack(reading.settings, e) {
        var i :| 0 <= i < |plan.parameters| && plan.parameters[i] == e;
      }
    } else {
      var i :| 0 <= i < |plan.parameters| && !ReadsBack(reading.settings, plan.parameters[i]);
      assert plan.parameters[i] in plan.parameters;
    }
  }

  lemma PortIsExact(plan: Plan, bound: seq<Socket>)
    requires plan.port.Some?
    ensures JudgePort(plan, bound) == Pass <==>
            |bound| > 0 && forall i | 0 <= i < |bound| :: bound[i].port == plan.port.value
  {
    var ports := set s | s in bound :: s.port;
    assert forall i | 0 <= i < |bound| :: bound[i].port in ports;
    if bound != [] && forall i | 0 <= i < |bound| :: bound[i].port == plan.port.value {
      assert bound[0].port in ports;
      assert ports == {plan.port.value};
    }
  }

  /** A kind passes exactly when its promise is kept. */
  lemma JudgementIsExact(kind: Kind, plan: Plan, o: Observation)
    ensures Judge(kind, plan, o) == Some(Pass) <==> Kept(kind, plan, o)
  {
    match kind
    case Port => if o.port.Some? && plan.port.Some? { PortIsExact(plan, o.port.value); }
    case Parameters => if o.parameters.Some? { ParametersAreExact(plan, o.parameters.value); }
    case Paths => if o.paths.Some? { PathsAreExact(plan, o.paths.value); }
    case Initialization =>
      if o.initialization.Some? && plan.initialization.Some? {
        InitializationIsExact(plan, o.initialization.value);
      }
    case Auth => if o.auth.Some? { assert forall i | 0 <= i < |o.auth.value| :: o.auth.value[i] in o.auth.value; }
    case Account => if o.account.Some? { assert forall i | 0 <= i < |o.account.value| :: o.account.value[i] in o.account.value; }
    case _ =>
  }

  lemma {:induction false} CheckAllAnswers(checks: seq<VerifyCheck>, plan: Plan, o: Observation, s: Scope)
    ensures RunChecks(checks, plan, o, s).Ok? <==>
            forall i | 0 <= i < |checks| :: CheckOutcome(checks[i], plan, o, s).Ok?
    ensures RunChecks(checks, plan, o, s).Ok? ==>
              var results := RunChecks(checks, plan, o, s).value;
              |results| == |checks| && forall i | 0 <= i < |checks| ::
                results[i] == CheckResult(checks[i].identifier, checks[i].kind, CheckOutcome(checks[i], plan, o, s).value)
  {
    if checks != [] {
      CheckAllAnswers(checks[1..], plan, o, s);
      assert checks == [checks[0]] + checks[1..];
    }
  }

  ghost predicate Met(check: VerifyCheck, plan: Plan, o: Observation) {
    && Kept(check.kind, plan, o)
    && (check.expr.Some? ==>
          Check(check.expr.value).Accepted? && TruthOf(check.expr.value, VerificationScope(plan, o)) == Val(true))
  }

  lemma CheckPassesExactly(check: VerifyCheck, plan: Plan, o: Observation)
    ensures CheckOutcome(check, plan, o, VerificationScope(plan, o)) == Ok(Pass) <==> Met(check, plan, o)
  {
    JudgementIsExact(check.kind, plan, o);
  }

  /** A run is verified exactly when the observation is of this plan and this host, and
      every check's promise is kept and its own condition, if it has one, comes to yes. */
  lemma VerifiedExactly(plan: Plan, checks: seq<VerifyCheck>, o: Observation)
    ensures Run(plan, checks, o).Ok? && Verified(Run(plan, checks, o).value) <==>
            o.planId == plan.planId && o.host == plan.host
            && forall i | 0 <= i < |checks| :: Met(checks[i], plan, o)
  {
    var s := VerificationScope(plan, o);
    CheckAllAnswers(checks, plan, o, s);
    forall i | 0 <= i < |checks|
      ensures CheckOutcome(checks[i], plan, o, s) == Ok(Pass) <==> Met(checks[i], plan, o)
    {
      CheckPassesExactly(checks[i], plan, o);
    }
    VerifiedByPlace(plan, checks, o);
  }

  lemma VerifiedByPlace(plan: Plan, checks: seq<VerifyCheck>, o: Observation)
    requires var s := VerificationScope(plan, o);
             RunChecks(checks, plan, o, s).Ok? ==>
               |RunChecks(checks, plan, o, s).value| == |checks|
               && forall i | 0 <= i < |checks| ::
                    Ok(RunChecks(checks, plan, o, s).value[i].outcome) == CheckOutcome(checks[i], plan, o, s)
    ensures Run(plan, checks, o).Ok? ==>
              (Verified(Run(plan, checks, o).value) <==>
               forall i | 0 <= i < |checks| :: CheckOutcome(checks[i], plan, o, VerificationScope(plan, o)) == Ok(Pass))
  {
  }

  // ------------------------------------------------------------------------- narrowing

  /** The same checks without the profile's own conditions. */
  function WithoutConditions(checks: seq<VerifyCheck>): (r: seq<VerifyCheck>)
    ensures |r| == |checks|
    ensures forall i | 0 <= i < |checks| :: r[i] == checks[i].(expr := None)
  {
    if checks == [] then [] else [checks[0].(expr := None)] + WithoutConditions(checks[1..])
  }

  /** A condition can only narrow: it changes nothing but a pass, and never to a pass. */
  lemma ConditionsOnlyNarrow(check: VerifyCheck, plan: Plan, o: Observation, s: Scope)
    ensures CheckOutcome(check.(expr := None), plan, o, s).Ok?
    ensures CheckOutcome(check.(expr := None), plan, o, s) == Ok(Pass)
            || CheckOutcome(check, plan, o, s) == CheckOutcome(check.(expr := None), plan, o, s)
  {
  }

  /** Dropping every condition keeps a verified run verified. */
  lemma DroppingConditionsKeepsVerified(plan: Plan, checks: seq<VerifyCheck>, o: Observation)
    requires Run(plan, checks, o).Ok? && Verified(Run(plan, checks, o).value)
    ensures var bare := WithoutConditions(checks);
            Run(plan, bare, o).Ok? && Verified(Run(plan, bare, o).value)
  {
    VerifiedExactly(plan, checks, o);
    VerifiedExactly(plan, WithoutConditions(checks), o);
    forall i | 0 <= i < |checks| ensures Met(WithoutConditions(checks)[i], plan, o) {
      assert Met(checks[i], plan, o);
    }
  }

  // ------------------------------------------------------------------- more was observed

  function WithReading<T>(before: Option<T>, after: Option<T>): Option<T> {
    if before.None? then after else before
  }

  /** The same instance and the same readings, with readings for kinds that had none. */
  ghost predicate ObservesMore(o: Observation, p: Observation) {
    && p.planId == o.planId && p.host == o.host
    && p.service == WithReading(o.service, p.service) && p.port == WithReading(o.port, p.port)
    && p.connection == WithReading(o.connection, p.connection) && p.version == WithReading(o.version, p.version)
    && p.parameters == WithReading(o.parameters, p.parameters) && p.paths == WithReading(o.paths, p.paths)
    && p.log == WithReading(o.log, p.log) && p.backup == WithReading(o.backup, p.backup)
    && p.auth == WithReading(o.auth, p.auth) && p.account == WithReading(o.account, p.account)
    && p.initialization == WithReading(o.initialization, p.initialization)
  }

  lemma ObservedRefines(kind: Kind, o: Observation, p: Observation)
    requires ObservesMore(o, p)
    ensures Refines(Observed(kind, o), Observed(kind, p))
  {
    RefinesReflexive(Observed(kind, o));
  }

  lemma {:induction false} ObservedGroupRefines(o: Observation, p: Observation, kinds: seq<Kind>)
    requires ObservesMore(o, p)
    ensures ScopeRefines(ObservedGroup(o, kinds), ObservedGroup(p, kinds))
  {
    if kinds != [] {
      ObservedRefines(kinds[0], o, p);
      ObservedGroupRefines(o, p, kinds[1..]);
    }
  }

  lemma VerificationScopeRefines(plan: Plan, o: Observation, p: Observation)
    requires ObservesMore(o, p)
    ensures ScopeRefines(VerificationScope(plan, o), VerificationScope(plan, p))
  {
    ObservedGroupRefines(o, p, ALL_KINDS);
    AddingObserved(ScopeBuilder.BaseScope()["plan" := Group(plan.document)],
                   ObservedGroup(o, ALL_KINDS), ObservedGroup(p, ALL_KINDS));
  }

  lemma AddingObserved(s: Scope, a: Scope, b: Scope)
    requires ScopeRefines(a, b)
    ensures ScopeRefines(s["observed" := Group(a)], s["observed" := Group(b)])
  {
    forall n | n in s ensures Refines(s[n], s[n]) {
      RefinesReflexive(s[n]);
    }
  }

  /** A kind that had a reading is judged as before. */
  lemma JudgedAsBefore(kind: Kind, plan: Plan, o: Observation, p: Observation)
    requires ObservesMore(o, p)
    ensures Judge(kind, plan, o).None? || Judge(kind, plan, o) == Judge(kind, plan, p)
  {
  }

  /** Every comparison the check's condition reaches is settled; it is asked only of a kind
      that passed. */
  predicate CheckSteady(check: VerifyCheck, plan: Plan, o: Observation, s: Scope) {
    check.expr.Some? && Judge(check.kind, plan, o) == Some(Pass) ==> Monotone.SteadyIfRead(check.expr.value, s)
  }

  lemma SolidChecksAreSteady(check: VerifyCheck, plan: Plan, o: Observation, s: Scope)
    requires check.expr.Some? ==> Monotone.ComparesSolids(check.expr.value, s)
    ensures CheckSteady(check, plan, o, s)
  {
    if check.expr.Some? {
      Monotone.SolidsAreSteadyIfRead(check.expr.value, s);
    }
  }

  lemma NarrowedIsMonotone(check: VerifyCheck, expr: Node, s: Scope, t: Scope)
    requires ScopeRefines(s, t) && Monotone.SteadyIfRead(expr, s)
    ensures Narrowed(check, expr, s) == Ok(Unobserved) || Narrowed(check, expr, s) == Narrowed(check, expr, t)
  {
    if Check(expr).Accepted? {
      Monotone.TruthIsMonotone(expr, s, t);
    }
  }

  lemma CheckIsMonotone(check: VerifyCheck, plan: Plan, o: Observation, p: Observation, s: Scope, t: Scope)
    requires ObservesMore(o, p) && ScopeRefines(s, t)
    requires CheckSteady(check, plan, o, s)
    ensures CheckOutcome(check, plan, o, s) == Ok(Unobserved)
            || CheckOutcome(check, plan, o, s) == CheckOutcome(check, plan, p, t)
  {
    JudgedAsBefore(check.kind, plan, o, p);
    if check.expr.Some? && Judge(check.kind, plan, o) == Some(Pass) {
      NarrowedIsMonotone(check, check.expr.value, s, t);
    }
  }

  /** What another reading may do to one result: decide it, if nothing had. */
  ghost predicate Settles(before: CheckResult, after: CheckResult) {
    after == before.(outcome := after.outcome) && (before.outcome == Unobserved || after.outcome == before.outcome)
  }

  ghost predicate AllSettle(before: seq<CheckResult>, after: seq<CheckResult>) {
    |before| == |after| && forall i | 0 <= i < |before| :: Settles(before[i], after[i])
  }

  /** The error is that of a check whose outcome had not been observed, put before any check
      whose error was known. */
  ghost predicate NewlyStopped(checks: seq<VerifyCheck>, plan: Plan, o: Observation, p: Observation, s: Scope, t: Scope,
                               error: VerifyError) {
    exists j | 0 <= j < |checks| ::
      && CheckOutcome(checks[j], plan, o, s) == Ok(Unobserved) && CheckOutcome(checks[j], plan, p, t) == Err(error)
      && forall k | 0 <= k <= j :: CheckOutcome(checks[k], plan, o, s).Ok?
  }

  /** A run that could not be reported still cannot, for the same error or for a new one before
      it; a run that could be is lost only to a new one. */
  ghost predicate StopsAgain(checks: seq<VerifyCheck>, plan: Plan, o: Observation, p: Observation, s: Scope, t: Scope,
                             before: Result<seq<CheckResult>, VerifyError>, after: Result<seq<CheckResult>, VerifyError>) {
    && (before.Err? ==> after.Err?)
    && (after.Err? ==> before == after || NewlyStopped(checks, plan, o, p, s, t, after.error))
  }

  lemma StopsLater(checks: seq<VerifyCheck>, plan: Plan, o: Observation, p: Observation, s: Scope, t: Scope, error: VerifyError)
    requires checks != [] && CheckOutcome(checks[0], plan, o, s).Ok? && NewlyStopped(checks[1..], plan, o, p, s, t, error)
    ensures NewlyStopped(checks, plan, o, p, s, t, error)
  {
    var rest := checks[1..];
    var j :| 0 <= j < |rest| && CheckOutcome(rest[j], plan, o, s) == Ok(Unobserved)
             && CheckOutcome(rest[j], plan, p, t) == Err(error)
             && forall k | 0 <= k <= j :: CheckOutcome(rest[k], plan, o, s).Ok?;
    assert checks[j + 1] == rest[j];
    forall k | 0 <= k <= j + 1 ensures CheckOutcome(checks[k], plan, o, s).Ok? {
      assert k > 0 ==> checks[k] == rest[k - 1];
    }
  }

  lemma {:induction false} ChecksSettle(checks: seq<VerifyCheck>, plan: Plan, o: Observation, p: Observation, s: Scope, t: Scope)
    requires ObservesMore(o, p) && ScopeRefines(s, t)
    requires forall c | c in checks :: CheckSteady(c, plan, o, s)
    ensures StopsAgain(checks, plan, o, p, s, t, RunChecks(checks, plan, o, s), RunChecks(checks, plan, p, t))
    ensures RunChecks(checks, plan, o, s).Ok? && RunChecks(checks, plan, p, t).Ok? ==>
              AllSettle(RunChecks(checks, plan, o, s).value, RunChecks(checks, plan, p, t).value)
  {
    if checks != [] {
      assert checks[0] in checks;
      CheckIsMonotone(checks[0], plan, o, p, s, t);
      if CheckOutcome(checks[0], plan, o, s).Ok? {
        if CheckOutcome(checks[0], plan, p, t).Ok? {
          var rest := checks[1..];
          ChecksSettle(rest, plan, o, p, s, t);
          var after := RunChecks(rest, plan, p, t);
          if after.Err? && NewlyStopped(rest, plan, o, p, s, t, after.error) {
            StopsLater(checks, plan, o, p, s, t, after.error);
          }
        } else {
          assert NewlyStopped(checks, plan, o, p, s, t, CheckOutcome(checks[0], plan, p, t).error);
        }
      }
    }
  }

  /** Reading a kind that was not observed changes only results that were unobserved. A run
      that could not be reported still cannot, for the same error unless a check in front of
      it had not been observed. */
  lemma RunsSettle(plan: Plan, checks: seq<VerifyCheck>, o: Observation, p: Observation)
    requires ObservesMore(o, p)
    requires forall c | c in checks :: CheckSteady(c, plan, o, VerificationScope(plan, o))
    ensures StopsAgain(checks, plan, o, p, VerificationScope(plan, o), VerificationScope(plan, p),
                       Run(plan, checks, o), Run(plan, checks, p))
    ensures Run(plan, checks, o).Ok? && Run(plan, checks, p).Ok? ==>
              AllSettle(Run(plan, checks, o).value, Run(plan, checks, p).value)
  {
    VerificationScopeRefines(plan, o, p);
    ChecksSettle(checks, plan, o, p, VerificationScope(plan, o), VerificationScope(plan, p));
  }

  // --------------------------------------------------------------------------- the echo

  /** A reading of an instance that is exactly what the plan promises. */
  function Echo(plan: Plan): Observation {
    Observation(
      plan.planId, plan.host,
      if plan.service.None? then None else Some(ServiceReading(plan.service.value, true, true)),
      if plan.port.None? then None else Some([Socket("127.0.0.1", plan.port.value)]),
      Some(ConnectionReading(true, None, None)),
      if plan.version.None? then None else Some(VersionReading(plan.version.value, plan.version.value)),
      Some(ParametersReading(Mapped(plan.parameters), None)),
      Some(Mapped(plan.paths)),
      Some(LogReading("log", true, true, None)),
      Some(BackupReading("backup", true, None)),
      Some([AuthRule("password", None, true, true)]),
      Some([Role("owner", true, true)]),
      if plan.initialization.None? then None
      else Some(InitializationReading(Mapped(plan.initialization.value.settings), plan.initialization.value.locale)))
  }

  /** Whether the plan says anything the kind could be held to. */
  ghost predicate Promises(kind: Kind, plan: Plan) {
    match kind
    case Service => plan.service.Some?
    case Port => plan.port.Some?
    case Version => plan.version.Some?
    case Parameters => plan.parameters != []
    case Paths => plan.paths != []
    case Initialization => plan.initialization.Some?
    case _ => true
  }

  /** No parameter is promised two different values. */
  ghost predicate Consistent(plan: Plan) {
    forall e, f | e in plan.parameters && f in plan.parameters && e.0 == f.0 :: Same(e.1, f.1)
  }

  lemma SameReflexive(v: Value)
    ensures Same(v, v)
  {
    EqualReflexive(v);
  }

  lemma EchoReadsBack(plan: Plan)
    requires Consistent(plan)
    ensures forall i | 0 <= i < |plan.parameters| :: ReadsBack(Mapped(plan.parameters), plan.parameters[i])
  {
    forall i | 0 <= i < |plan.parameters| ensures ReadsBack(Mapped(plan.parameters), plan.parameters[i]) {
      var e := plan.parameters[i];
      assert e in plan.parameters;
      var j := MappedComesFrom(plan.parameters, e.0);
      assert plan.parameters[j] in plan.parameters;
    }
  }

  lemma {:induction false} EchoPaths(plan: Plan)
    ensures forall i | 0 <= i < |plan.paths| && LastSaid(plan.paths, i) ::
              plan.paths[i].0 in Mapped(plan.paths) && Mapped(plan.paths)[plan.paths[i].0] == plan.paths[i].1
  {
    forall i | 0 <= i < |plan.paths| && LastSaid(plan.paths, i)
      ensures plan.paths[i].0 in Mapped(plan.paths) && Mapped(plan.paths)[plan.paths[i].0] == plan.paths[i].1
    {
      MappedIsLastSaid(plan.paths, i);
    }
  }

  lemma EchoInitialization(promised: Promised)
    ensures InitializationKept(promised, InitializationReading(Mapped(promised.settings), promised.locale))
  {
    var found := WithLocale(Mapped(promised.settings), promised.locale);
    forall n | n in Wanted(promised) ensures n in found && Same(found[n], Wanted(promised)[n]) {
      SameReflexive(found[n]);
    }
    WantedSays(promised, found);
  }

  lemma EchoKeepsPromises(kind: Kind, plan: Plan)
    requires Promises(kind, plan) && (kind.Parameters? ==> Consistent(plan))
    ensures Kept(kind, plan, Echo(plan))
  {
    match kind
    case Parameters => EchoReadsBack(plan);
    case Paths =>
      EchoPaths(plan);
      assert plan.paths[0].0 in Mapped(plan.paths);
    case Initialization => EchoInitialization(plan.initialization.value);
    case _ =>
  }

  lemma ContradictionDoesNotReadBack(plan: Plan)
    requires !Consistent(plan)
    ensures exists i :: 0 <= i < |plan.parameters| && !ReadsBack(Mapped(plan.parameters), plan.parameters[i])
  {
    var e, f :| e in plan.parameters && f in plan.parameters && e.0 == f.0 && !Same(e.1, f.1);
    var settings := Mapped(plan.parameters);
    if Same(settings[e.0], e.1) && Same(settings[e.0], f.1) {
      SameIsEuclidean(settings[e.0], e.1, f.1);
    } else {
      var i :| 0 <= i < |plan.parameters| && plan.parameters[i] == if Same(settings[e.0], e.1) then f else e;
      assert !ReadsBack(settings, plan.parameters[i]);
    }
  }

  /** A reading that echoes the plan passes a check without a condition exactly when the
      plan promises something for its kind; for parameters, without contradicting itself. */
  lemma EchoPassesExactly(kind: Kind, plan: Plan)
    ensures Judge(kind, plan, Echo(plan)) == Some(Pass) <==>
            Promises(kind, plan) && (kind.Parameters? ==> Consistent(plan))
  {
    JudgementIsExact(kind, plan, Echo(plan));
    if Promises(kind, plan) {
      if kind.Parameters? && !Consistent(plan) {
        ContradictionDoesNotReadBack(plan);
      } else {
        EchoKeepsPromises(kind, plan);
      }
    }
  }

  lemma SameIsEuclidean(v: Value, a: Value, b: Value)
    requires Same(v, a) && Same(v, b)
    ensures Same(a, b)
  {
    if !v.Bool? && !a.Bool? && !b.Bool? {
      if v.Num? && a.Num? && b.Num? {
      } else {
        SameMeansEqual(v, a);
        SameMeansEqual(v, b);
        EqualSymmetric(v, a);
        EqualTransitive(a, v, b);
      }
    }
  }

  lemma SameMeansEqual(a: Value, b: Value)
    requires Same(a, b)
    ensures Equal(a, b)
  {
    EqualReflexive(a);
  }

  // ------------------------------------------------------- conditions that do not parse

  /** A check ends in the unreadable condition exactly when its kind's promise is kept and
      its condition is one the language refuses: on a kind that did not pass, nobody
      notices. Like every other error it leaves the run without a report. */
  lemma UnreadableExactly(check: VerifyCheck, plan: Plan, o: Observation)
    ensures CheckOutcome(check, plan, o, VerificationScope(plan, o)) == Err(Unreadable(check)) <==>
            Kept(check.kind, plan, o) && check.expr.Some? && Check(check.expr.value).Refused?
    ensures CheckOutcome(check, plan, o, VerificationScope(plan, o)) == Err(Unreadable(check)) ==>
              forall checks | check in checks :: Run(plan, checks, o).Err?
  {
    JudgementIsExact(check.kind, plan, o);
    if CheckOutcome(check, plan, o, VerificationScope(plan, o)) == Err(Unreadable(check)) {
      forall checks | check in checks ensures Run(plan, checks, o).Err? {
        OneErrorStopsTheRun(check, checks, plan, o);
      }
    }
  }

  lemma OneErrorStopsTheRun(check: VerifyCheck, checks: seq<VerifyCheck>, plan: Plan, o: Observation)
    requires check in checks && CheckOutcome(check, plan, o, VerificationScope(plan, o)).Err?
    ensures Run(plan, checks, o).Err?
  {
    CheckAllAnswers(checks, plan, o, VerificationScope(plan, o));
    var i :| 0 <= i < |checks| && checks[i] == check;
  }

  /** A check that asks for a connection and whose condition is a call: any instance that
      accepted one is left without a report. */
  function CalledConnection(): VerifyCheck {
    VerifyCheck("fixture.called", Connection, Some(Construct))
  }

  lemma UnreadableConditionEscapes(plan: Plan, o: Observation)
    requires o.planId == plan.planId && o.host == plan.host && Kept(Connection, plan, o)
    ensures Run(plan, [CalledConnection()], o) == Err(Unreadable(CalledConnection()))
  {
    UnreadableExactly(CalledConnection(), plan, o);
    OnlyCheckDecides(CalledConnection(), plan, o);
  }

  lemma OnlyCheckDecides(check: VerifyCheck, plan: Plan, o: Observation)
    requires o.planId == plan.planId && o.host == plan.host
    requires CheckOutcome(check, plan, o, VerificationScope(plan, o)).Err?
    ensures Run(plan, [check], o) == Err(CheckOutcome(check, plan, o, VerificationScope(plan, o)).error)
  {
  }

  // ------------------------------------------------------------------ what paths do not say

  /** A pass on paths proves a planned path exactly when the instance reports one of them;
      reporting only places the plan does not know passes and proves none. */
  lemma PathsProveExactly(plan: Plan, resolved: map<string, string>)
    requires JudgePaths(plan, resolved) == Pass
    ensures (exists p | p in Mapped(plan.paths) :: p in resolved && resolved[p] == Mapped(plan.paths)[p]) <==>
            Mapped(plan.paths).Keys * resolved.Keys != {}
  {
    var planned := Mapped(plan.paths);
    forall p | p in planned && p in resolved ensures resolved[p] == planned[p] && p in planned.Keys * resolved.Keys {
    }
  }

  lemma PathsPassProvingNothing(plan: Plan)
    requires plan.paths == [("data", "/var/lib/data")]
    ensures JudgePaths(plan, map["other" := "/tmp"]) == Pass
    ensures !exists p | p in Mapped(plan.paths) :: p in map["other" := "/tmp"]
  {
    var resolved := map["other" := "/tmp"];
    assert Mapped(plan.paths).Keys == {"data"};
    assert "data" != "other";
    assert forall p | p in Mapped(plan.paths) :: p !in resolved;
    assert "other" in resolved;
  }
}
