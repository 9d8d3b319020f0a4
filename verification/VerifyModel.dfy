// What a plan promised about an instance, what was read back from one, and what each kind
// of check makes of the two.
module VerifyModel {
  import opened Wrappers
  import opened Values

  datatype Kind =
    | Service | Port | Connection | Version | Parameters | Paths | Log | Backup | Auth | Account | Initialization

  datatype Outcome = Pass | Fail | Unobserved

  datatype Socket = Socket(address: string, port: int)

  datatype AuthRule = AuthRule(method_: string, address: Option<string>, passwordRequired: bool, local: bool)

  datatype Role = Role(name: string, canLogin: bool, passwordSet: bool)

  datatype ServiceReading = ServiceReading(unit: string, enabled: bool, active: bool)
  datatype ConnectionReading = ConnectionReading(accepted: bool, account: Option<string>, detail: Option<string>)
  datatype VersionReading = VersionReading(reported: string, major: string)
  datatype ParametersReading = ParametersReading(settings: map<string, Value>, unknown: Option<seq<string>>)
  datatype LogReading = LogReading(path: string, exists_: bool, writtenSinceStart: bool, sizeBytes: Option<int>)
  datatype BackupReading = BackupReading(path: string, writable: bool, detail: Option<string>)
  datatype InitializationReading = InitializationReading(settings: map<string, Value>, locale: Option<string>)

  /** One reading of one instance. A kind that is absent was not observed. */
  datatype Observation = Observation(
    planId: string, host: string,
    service: Option<ServiceReading>, port: Option<seq<Socket>>, connection: Option<ConnectionReading>,
    version: Option<VersionReading>, parameters: Option<ParametersReading>, paths: Option<map<string, string>>,
    log: Option<LogReading>, backup: Option<BackupReading>, auth: Option<seq<AuthRule>>,
    account: Option<seq<Role>>, initialization: Option<InitializationReading>)

  /** What creating the instance was promised to take; nothing at all is `None`. */
  datatype Promised = Promised(settings: seq<(string, Value)>, locale: Option<string>)

  /** The parts of a plan a judgement reads, and the whole document a profile's own
      condition may read. */
  datatype Plan = Plan(
    planId: string, host: string, service: Option<string>, port: Option<int>, version: Option<string>,
    parameters: seq<(string, Value)>, paths: seq<(string, string)>, initialization: Option<Promised>,
    document: Scope)

  // ------------------------------------------------------------------------- helpers

  /** Equality of an observed value with a planned one: a boolean equals itself alone, numbers
      are equal by value, and the rest as values of expressions are. */
  predicate Same(observed: Value, planned: Value) {
    if observed.Bool? || planned.Bool? then observed == planned
    else if observed.Num? && planned.Num? then observed.n.Real() == planned.n.Real()
    else Equal(observed, planned)
  }

  /** A mapping read off a list of pairs, a name given twice keeping the later value. */
  function Mapped<V>(pairs: seq<(string, V)>): (m: map<string, V>)
    ensures m.Keys == set p | p in pairs :: p.0
  {
    if pairs == [] then map[]
    else
      var n := |pairs| - 1;
      assert pairs == pairs[..n] + [pairs[n]];
      Mapped(pairs[..n])[pairs[n].0 := pairs[n].1]
  }

  predicate OnlyThisMachine(address: string) {
    address == "127.0.0.1" || address == "::1" || address == "localhost"
  }

  predicate LoopbackOnly(bound: seq<Socket>) {
    bound != [] && forall s | s in bound :: OnlyThisMachine(s.address)
  }

  // ------------------------------------------------------------------- the judgements

  function JudgeService(plan: Plan, reading: ServiceReading): Outcome {
    if plan.service.None? then Unobserved
    else if reading.unit != plan.service.value then Fail
    else if reading.active && reading.enabled then Pass
    else Fail
  }

  function JudgePort(plan: Plan, bound: seq<Socket>): Outcome {
    if plan.port.None? then Unobserved
    else if bound == [] then Fail
    else if (set s | s in bound :: s.port) != {plan.port.value} then Fail
    else Pass
  }

  function JudgeConnection(reading: ConnectionReading): Outcome {
    if reading.accepted then Pass else Fail
  }

  function JudgeVersion(plan: Plan, reading: VersionReading): Outcome {
    if plan.version.None? then Unobserved
    else if reading.major != plan.version.value then Fail
    else Pass
  }

  predicate Asked(settings: map<string, Value>, entry: (string, Value)) {
    entry.0 in settings
  }

  predicate ReadsBack(settings: map<string, Value>, entry: (string, Value)) {
    entry.0 in settings && Same(settings[entry.0], entry.1)
  }

  /** A list of names that was left out is an empty one. */
  function Named(names: Option<seq<string>>): seq<string> {
    if names.None? then [] else names.value
  }

  function JudgeParameters(plan: Plan, reading: ParametersReading): Outcome {
    if plan.parameters == [] then Unobserved
    else if Named(reading.unknown) != [] then Fail
    else if exists e | e in plan.parameters :: !Asked(reading.settings, e) then Unobserved
    else if exists e | e in plan.parameters :: Asked(reading.settings, e) && !ReadsBack(reading.settings, e) then Fail
    else Pass
  }

  function JudgePaths(plan: Plan, resolved: map<string, string>): Outcome {
    if plan.paths == [] then Unobserved
    else
      var planned := Mapped(plan.paths);
      if exists p | p in planned :: p in resolved && resolved[p] != planned[p] then Fail
      else if resolved == map[] then Unobserved
      else Pass
  }

  function JudgeLog(reading: LogReading): Outcome {
    if reading.exists_ && reading.writtenSinceStart then Pass else Fail
  }

  function JudgeBackup(reading: BackupReading): Outcome {
    if reading.writable then Pass else Fail
  }

  predicate Open(rule: AuthRule) {
    !rule.passwordRequired && !rule.local
  }

  function JudgeAuth(rules: seq<AuthRule>): Outcome {
    if rules == [] then Unobserved
    else if exists r | r in rules :: Open(r) then Fail
    else Pass
  }

  predicate Naked(role: Role) {
    role.canLogin && !role.passwordSet
  }

  function JudgeAccount(roles: seq<Role>): Outcome {
    if roles == [] then Unobserved
    else if exists r | r in roles :: Naked(r) then Fail
    else Pass
  }

  /** The settings and the locale in one mapping, the locale last. */
  function WithLocale(settings: map<string, Value>, locale: Option<string>): map<string, Value> {
    if locale.None? then settings else settings["locale" := Text(locale.value)]
  }

  function Wanted(promised: Promised): map<string, Value> {
    WithLocale(Mapped(promised.settings), promised.locale)
  }

  function JudgeInitialization(plan: Plan, reading: InitializationReading): Outcome {
    if plan.initialization.None? then Unobserved
    else
      var wanted := Wanted(plan.initialization.value);
      var found := WithLocale(reading.settings, reading.locale);
      if exists n | n in wanted :: n in found && !Same(found[n], wanted[n]) then Fail
      else if exists n | n in wanted :: n !in found then Unobserved
      else Pass
  }

  /** The kind's judgement on its reading, `None` where there is none. */
  function Judge(kind: Kind, plan: Plan, o: Observation): Option<Outcome> {
    match kind
    case Service => if o.service.None? then None else Some(JudgeService(plan, o.service.value))
    case Port => if o.port.None? then None else Some(JudgePort(plan, o.port.value))
    case Connection => if o.connection.None? then None else Some(JudgeConnection(o.connection.value))
    case Version => if o.version.None? then None else Some(JudgeVersion(plan, o.version.value))
    case Parameters => if o.parameters.None? then None else Some(JudgeParameters(plan, o.parameters.value))
    case Paths => if o.paths.None? then None else Some(JudgePaths(plan, o.paths.value))
    case Log => if o.log.None? then None else Some(JudgeLog(o.log.value))
    case Backup => if o.backup.None? then None else Some(JudgeBackup(o.backup.value))
    case Auth => if o.auth.None? then None else Some(JudgeAuth(o.auth.value))
    case Account => if o.account.None? then None else Some(JudgeAccount(o.account.value))
    case Initialization =>
      if o.initialization.None? then None else Some(JudgeInitialization(plan, o.initialization.value))
  }

  // ------------------------------------------------------------- the loops, as written

  /** The loop that compares planned paths with the ones the instance reports. */
  method JudgePathsLoop(plan: Plan, resolved: map<string, string>) returns (r: Outcome)
    ensures r == JudgePaths(plan, resolved)
  {
    if plan.paths == [] {
      return Unobserved;
    }
    var planned := Mapped(plan.paths);
    var wrong := false;
    var left := planned.Keys;
    while left != {}
      invariant left <= planned.Keys
      invariant wrong <==> exists p | p in planned :: p !in left && p in resolved && resolved[p] != planned[p]
      decreases left
    {
      var purpose :| purpose in left;
      left := left - {purpose};
      if purpose in resolved && resolved[purpose] != planned[purpose] {
        wrong := true;
      }
    }
    if wrong {
      return Fail;
    }
    if resolved == map[] {
      return Unobserved;
    }
    return Pass;
  }

  /** The loop that reads the promised settings into a mapping, a key at a time. */
  method WantedLoop(promised: Promised) returns (wanted: map<string, Value>)
    ensures wanted == Wanted(promised)
  {
    wanted := map[];
    for i := 0 to |promised.settings|
      invariant wanted == Mapped(promised.settings[..i])
    {
      assert promised.settings[..i + 1][..i] == promised.settings[..i];
      wanted := wanted[promised.settings[i].0 := promised.settings[i].1];
    }
    assert promised.settings[..|promised.settings|] == promised.settings;
    if promised.locale.Some? {
      wanted := wanted["locale" := Text(promised.locale.value)];
    }
  }
}
