// A verification run: what a condition may read, how a check is decided, and what stops
// the run.
module Verify {
  import opened Wrappers
  import opened Values
  import opened Expressions
  import opened VerifyModel
  import ScopeBuilder

  datatype VerifyCheck = VerifyCheck(identifier: string, kind: Kind, expr: Option<Node>)

  datatype CheckResult = CheckResult(identifier: string, kind: Kind, outcome: VerifyModel.Outcome)

  /** Why there is no report at all: the two documents are about different things, or a
      profile's condition is written wrongly. An unreadable condition and an exception
      nothing handles come through as they are. */
  datatype VerifyError =
    | OtherPlan | OtherHost
    | BadCondition(check: VerifyCheck, fault: Fault)
    | Unreadable(check: VerifyCheck)
    | Escaped(panic: Panic)

  // ---------------------------------------------------------------------- the vocabulary

  function KindName(kind: Kind): string {
    match kind
    case Service => "service"
    case Port => "port"
    case Connection => "connection"
    case Version => "version"
    case Parameters => "parameters"
    case Paths => "paths"
    case Log => "log"
    case Backup => "backup"
    case Auth => "auth"
    case Account => "account"
    case Initialization => "initialization"
  }

  const ALL_KINDS: seq<Kind> := [
    Service, Port, Connection, Version, Parameters, Paths, Log, Backup, Auth, Account, Initialization]

  function WithText(m: map<string, Value>, key: string, o: Option<string>): map<string, Value> {
    if o.None? then m else m[key := Text(o.value)]
  }

  function SocketGroup(s: Socket): Value {
    Group(map["address" := Text(s.address), "port" := ScopeBuilder.Int(s.port)])
  }

  function AuthGroup(r: AuthRule): Value {
    Group(WithText(map["method" := Text(r.method_), "password_required" := Bool(r.passwordRequired),
                       "local" := Bool(r.local)], "address", r.address))
  }

  function RoleGroup(r: Role): Value {
    Group(map["name" := Text(r.name), "can_login" := Bool(r.canLogin), "password_set" := Bool(r.passwordSet)])
  }

  function Listed<T>(xs: seq<T>, f: T -> Value): Value {
    List(seq(|xs|, i requires 0 <= i < |xs| => f(xs[i])))
  }

  /** One kind's reading, with the answers a small language cannot work out for itself; the
      marker where there is no reading. */
  function Observed(kind: Kind, o: Observation): Value {
    match kind
    case Service => if o.service.None? then Unreported else
      var r := o.service.value;
      Group(map["unit" := Text(r.unit), "enabled" := Bool(r.enabled), "active" := Bool(r.active)])
    case Port => if o.port.None? then Unreported else
      Group(map["bound" := Listed(o.port.value, SocketGroup), "loopback_only" := Bool(LoopbackOnly(o.port.value))])
    case Connection => if o.connection.None? then Unreported else
      var r := o.connection.value;
      Group(WithText(WithText(map["accepted" := Bool(r.accepted)], "account", r.account), "detail", r.detail))
    case Version => if o.version.None? then Unreported else
      Group(map["reported" := Text(o.version.value.reported), "major" := Text(o.version.value.major)])
    case Parameters => if o.parameters.None? then Unreported else
      var r, m := o.parameters.value, map["settings" := Group(o.parameters.value.settings)];
      Group(if r.unknown.None? then m else m["unknown" := Listed(r.unknown.value, (t: string) => Text(t))])
    case Paths => if o.paths.None? then Unreported else
      Group(map["resolved" := Group(map p | p in o.paths.value :: Text(o.paths.value[p]))])
    case Log => if o.log.None? then Unreported else
      var r := o.log.value;
      var m := map["path" := Text(r.path), "exists" := Bool(r.exists_), "written_since_start" := Bool(r.writtenSinceStart)];
      Group(if r.sizeBytes.None? then m else m["size_bytes" := ScopeBuilder.Int(r.sizeBytes.value)])
    case Backup => if o.backup.None? then Unreported else
      var r := o.backup.value;
      Group(WithText(map["path" := Text(r.path), "writable" := Bool(r.writable)], "detail", r.detail))
    case Auth => if o.auth.None? then Unreported else Group(map["rules" := Listed(o.auth.value, AuthGroup)])
    case Account => if o.account.None? then Unreported else Group(map["roles" := Listed(o.account.value, RoleGroup)])
    case Initialization => if o.initialization.None? then Unreported else
      var r := o.initialization.value;
      Group(WithText(map["settings" := Group(r.settings)], "locale", r.locale))
  }

  function ObservedGroup(o: Observation, kinds: seq<Kind>): map<string, Value> {
    if kinds == [] then map[] else ObservedGroup(o, kinds[1..])[KindName(kinds[0]) := Observed(kinds[0], o)]
  }

  function VerificationScope(plan: Plan, o: Observation): Scope {
    ScopeBuilder.BaseScope()["plan" := Group(plan.document)]["observed" := Group(ObservedGroup(o, ALL_KINDS))]
  }

  // ------------------------------------------------------------------------- the run

  /** The profile's own condition on a kind that already passed. */
  function Narrowed(check: VerifyCheck, expr: Node, s: Scope): Result<VerifyModel.Outcome, VerifyError> {
    if Check(expr).Refused? then Err(Unreadable(check))
    else
      match TruthOf(expr, s)
      case Val(met) => Ok(if met then Pass else Fail)
      case Missing(_) => Ok(Unobserved)
      case Wrong(fault) => Err(BadCondition(check, fault))
      case Crash(panic) => Err(VerifyError.Escaped(panic))
  }

  /** The outcome of a check; its condition is asked only where the kind passed. */
  function CheckOutcome(check: VerifyCheck, plan: Plan, o: Observation, s: Scope): Result<VerifyModel.Outcome, VerifyError> {
    match Judge(check.kind, plan, o)
    case None => Ok(Unobserved)
    case Some(outcome) =>
      if outcome != Pass || check.expr.None? then Ok(outcome) else Narrowed(check, check.expr.value, s)
  }

  function RunChecks(checks: seq<VerifyCheck>, plan: Plan, o: Observation, s: Scope): Result<seq<CheckResult>, VerifyError> {
    if checks == [] then Ok([])
    else
      var outcome :- CheckOutcome(checks[0], plan, o, s);
      var rest :- RunChecks(checks[1..], plan, o, s);
      Ok([CheckResult(checks[0].identifier, checks[0].kind, outcome)] + rest)
  }

  function Run(plan: Plan, checks: seq<VerifyCheck>, o: Observation): Result<seq<CheckResult>, VerifyError> {
    if o.planId != plan.planId then Err(OtherPlan)
    else if o.host != plan.host then Err(OtherHost)
    else RunChecks(checks, plan, o, VerificationScope(plan, o))
  }

  /** Every check passed. */
  predicate Verified(results: seq<CheckResult>) {
    forall r | r in results :: r.outcome == Pass
  }
}
