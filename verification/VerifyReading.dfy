// What a check of a profile reads of an instance, kind by kind and field by field; and when
// a check fails, as opposed to not having been observed.
module VerifyReading {
  import opened Wrappers
  import opened Values
  import opened Expressions
  import opened VerifyModel
  import opened Verify
  import opened VerifyLaws
  import opened ScopeReading
  import ScopeBuilder
  import ScopeLeaves
  import Units

  // ------------------------------------------------------------------ reading the instance

  lemma {:induction false} ObservedAt(o: Observation, kinds: seq<Kind>, i: nat)
    requires i < |kinds| && forall j | 0 <= j < i :: KindName(kinds[j]) != KindName(kinds[i])
    ensures KindName(kinds[i]) in ObservedGroup(o, kinds)
    ensures ObservedGroup(o, kinds)[KindName(kinds[i])] == Observed(kinds[i], o)
  {
    if i > 0 {
      var rest := kinds[1..];
      assert KindName(kinds[0]) != KindName(kinds[i]);
      assert rest[i - 1] == kinds[i] && forall j | 0 <= j < i - 1 :: rest[j] == kinds[j + 1];
      ObservedAt(o, rest, i - 1);
    }
  }

  lemma KindsAreApart(kind: Kind, other: Kind)
    requires kind != other
    ensures KindName(kind) != KindName(other)
  {
  }

  function PlaceOf(kind: Kind): (i: nat)
    ensures i < |ALL_KINDS| && ALL_KINDS[i] == kind && forall j | 0 <= j < i :: ALL_KINDS[j] != kind
  {
    match kind
    case Service => 0
    case Port => 1
    case Connection => 2
    case Version => 3
    case Parameters => 4
    case Paths => 5
    case Log => 6
    case Backup => 7
    case Auth => 8
    case Account => 9
    case Initialization => 10
  }

  lemma KindIsInScope(kind: Kind, plan: Plan, o: Observation)
    ensures var s := VerificationScope(plan, o);
            && "observed" in s && s["observed"] == Group(ObservedGroup(o, ALL_KINDS))
            && KindName(kind) in ObservedGroup(o, ALL_KINDS) && ObservedGroup(o, ALL_KINDS)[KindName(kind)] == Observed(kind, o)
  {
    forall j | 0 <= j < PlaceOf(kind) ensures KindName(ALL_KINDS[j]) != KindName(kind) {
      KindsAreApart(ALL_KINDS[j], kind);
    }
    ObservedAt(o, ALL_KINDS, PlaceOf(kind));
  }

  /** The kind's reading by its name in an expression, and one field of it. */
  function KindNode(kind: Kind): Node {
    Attribute(Name("observed"), KindName(kind))
  }

  function LeafNode(kind: Kind, key: string): Node {
    Attribute(KindNode(kind), key)
  }

  lemma LeafIsRead(kind: Kind, plan: Plan, o: Observation, key: string)
    ensures var e := LeafNode(kind, key);
            Evaluate(e, VerificationScope(plan, o)) ==
            match Observed(kind, o) { case Group(m) => Resolve(m, key, e) case Unreported => Missing(KindNode(kind)) case _ => Wrong(NotAGroup) }
  {
    var s := VerificationScope(plan, o);
    KindIsInScope(kind, plan, o);
    assert Evaluate(Name("observed"), s) == Val(Group(ObservedGroup(o, ALL_KINDS)));
    assert Evaluate(KindNode(kind), s) == Resolve(ObservedGroup(o, ALL_KINDS), KindName(kind), KindNode(kind));
  }

  /** There is no reading of the kind. */
  predicate Unread(kind: Kind, o: Observation) {
    match kind
    case Service => o.service.None?
    case Port => o.port.None?
    case Connection => o.connection.None?
    case Version => o.version.None?
    case Parameters => o.parameters.None?
    case Paths => o.paths.None?
    case Log => o.log.None?
    case Backup => o.backup.None?
    case Auth => o.auth.None?
    case Account => o.account.None?
    case Initialization => o.initialization.None?
  }

  /** Anything read of a kind that was not observed is a missing fact, the same for every
      field; of one that was it is that field, or a mistake where it has none. */
  lemma UnreadIsMissing(kind: Kind, plan: Plan, o: Observation, key: string)
    ensures Evaluate(LeafNode(kind, key), VerificationScope(plan, o)) == Missing(KindNode(kind)) <==> Unread(kind, o)
  {
    LeafIsRead(kind, plan, o, key);
    assert LeafNode(kind, key) != KindNode(kind) by { assert KindNode(kind) < LeafNode(kind, key); }
  }

  /** The scope has this reading under the name of the kind. */
  ghost predicate Has(s: Scope, kind: string, reading: map<string, Value>) {
    Evaluate(Attribute(Name("observed"), kind), s) == Val(Group(reading))
  }

  /** An expression for the field comes to this value. */
  ghost predicate Reads(s: Scope, kind: string, key: string, v: Value) {
    Evaluate(FactAt("observed", kind, key), s) == Val(v)
  }

  /** A field that need not be there: its value, or a mistake in the expression naming it. */
  ghost predicate ReadsIfThere(s: Scope, kind: string, key: string, v: Option<Value>) {
    Evaluate(FactAt("observed", kind, key), s) == if v.Some? then Val(v.value) else Wrong(Undefined)
  }

  lemma FieldIsRead(s: Scope, kind: string, reading: map<string, Value>, key: string)
    requires Has(s, kind, reading)
    ensures key in reading && reading[key] != Unreported ==> Reads(s, kind, key, reading[key])
    ensures key !in reading ==> ReadsIfThere(s, kind, key, None)
  {
  }

  lemma KindIsRead(kind: Kind, plan: Plan, o: Observation)
    requires Observed(kind, o).Group?
    ensures Has(VerificationScope(plan, o), KindName(kind), Observed(kind, o).members)
  {
    var s := VerificationScope(plan, o);
    KindIsInScope(kind, plan, o);
    assert Evaluate(Name("observed"), s) == Val(Group(ObservedGroup(o, ALL_KINDS)));
  }

  function OptionalText(text: Option<string>): Option<Value> {
    if text.None? then None else Some(Text(text.value))
  }

  /** Only the machine itself reaches the address. */
  predicate Loopback(address: string) {
    address in {"127.0.0.1", "::1", "localhost"}
  }

  ghost predicate AreTexts(items: seq<Value>, texts: seq<string>) {
    |items| == |texts| && forall i | 0 <= i < |texts| :: items[i] == Text(texts[i])
  }

  ghost predicate ServiceRead(s: Scope, r: ServiceReading) {
    && Reads(s, "service", "unit", Text(r.unit))
    && Reads(s, "service", "enabled", Bool(r.enabled))
    && Reads(s, "service", "active", Bool(r.active))
  }

  lemma ServiceFields(s: Scope, o: Observation)
    requires o.service.Some? && Observed(Service, o).Group? && Has(s, "service", Observed(Service, o).members)
    ensures ServiceRead(s, o.service.value)
  {
    FieldIsRead(s, "service", Observed(Service, o).members, "unit");
    FieldIsRead(s, "service", Observed(Service, o).members, "enabled");
    FieldIsRead(s, "service", Observed(Service, o).members, "active");
  }

  ghost predicate ConnectionRead(s: Scope, r: ConnectionReading) {
    && Reads(s, "connection", "accepted", Bool(r.accepted))
    && ReadsIfThere(s, "connection", "account", OptionalText(r.account))
    && ReadsIfThere(s, "connection", "detail", OptionalText(r.detail))
  }

  lemma ConnectionFields(s: Scope, o: Observation)
    requires o.connection.Some? && Observed(Connection, o).Group? && Has(s, "connection", Observed(Connection, o).members)
    ensures ConnectionRead(s, o.connection.value)
  {
    FieldIsRead(s, "connection", Observed(Connection, o).members, "accepted");
    FieldIsRead(s, "connection", Observed(Connection, o).members, "account");
    FieldIsRead(s, "connection", Observed(Connection, o).members, "detail");
  }

  ghost predicate VersionRead(s: Scope, r: VersionReading) {
    && Reads(s, "version", "reported", Text(r.reported))
    && Reads(s, "version", "major", Text(r.major))
  }

  lemma VersionFields(s: Scope, o: Observation)
    requires o.version.Some? && Observed(Version, o).Group? && Has(s, "version", Observed(Version, o).members)
    ensures VersionRead(s, o.version.value)
  {
    FieldIsRead(s, "version", Observed(Version, o).members, "reported");
    FieldIsRead(s, "version", Observed(Version, o).members, "major");
  }

  ghost predicate LogRead(s: Scope, r: LogReading) {
    && Reads(s, "log", "path", Text(r.path))
    && Reads(s, "log", "exists", Bool(r.exists_))
    && Reads(s, "log", "written_since_start", Bool(r.writtenSinceStart))
    && ReadsIfThere(s, "log", "size_bytes", if r.sizeBytes.None? then None else Some(Num(Whole(r.sizeBytes.value))))
  }

  lemma LogFields(s: Scope, o: Observation)
    requires o.log.Some? && Observed(Log, o).Group? && Has(s, "log", Observed(Log, o).members)
    ensures LogRead(s, o.log.value)
  {
    FieldIsRead(s, "log", Observed(Log, o).members, "path");
    FieldIsRead(s, "log", Observed(Log, o).members, "exists");
    FieldIsRead(s, "log", Observed(Log, o).members, "written_since_start");
    FieldIsRead(s, "log", Observed(Log, o).members, "size_bytes");
  }

  ghost predicate BackupRead(s: Scope, r: BackupReading) {
    && Reads(s, "backup", "path", Text(r.path))
    && Reads(s, "backup", "writable", Bool(r.writable))
    && ReadsIfThere(s, "backup", "detail", OptionalText(r.detail))
  }

  lemma BackupFields(s: Scope, o: Observation)
    requires o.backup.Some? && Observed(Backup, o).Group? && Has(s, "backup", Observed(Backup, o).members)
    ensures BackupRead(s, o.backup.value)
  {
    FieldIsRead(s, "backup", Observed(Backup, o).members, "path");
    FieldIsRead(s, "backup", Observed(Backup, o).members, "writable");
    FieldIsRead(s, "backup", Observed(Backup, o).members, "detail");
  }

  ghost predicate InitializationRead(s: Scope, r: InitializationReading) {
    && Reads(s, "initialization", "settings", Group(r.settings))
    && ReadsIfThere(s, "initialization", "locale", OptionalText(r.locale))
  }

  lemma InitializationFields(s: Scope, o: Observation)
    requires o.initialization.Some? && Observed(Initialization, o).Group? && Has(s, "initialization", Observed(Initialization, o).members)
    ensures InitializationRead(s, o.initialization.value)
  {
    FieldIsRead(s, "initialization", Observed(Initialization, o).members, "settings");
    FieldIsRead(s, "initialization", Observed(Initialization, o).members, "locale");
  }

  /** Whether the port is reachable from this machine alone: there is a socket, and none but
      on the loopback; and every socket is listed as it was reported. */
  ghost predicate PortRead(s: Scope, bound: seq<Socket>) {
    && Reads(s, "port", "loopback_only", Bool(|bound| > 0 && forall i | 0 <= i < |bound| :: Loopback(bound[i].address)))
    && exists items ::
         Reads(s, "port", "bound", List(items)) && |items| == |bound|
         && forall i | 0 <= i < |bound| :: SocketEntry(items[i], bound[i])
  }

  lemma LoopbackByPlaces(bound: seq<Socket>)
    ensures LoopbackOnly(bound) <==> |bound| > 0 && forall i | 0 <= i < |bound| :: Loopback(bound[i].address)
  {
    assert forall i | 0 <= i < |bound| :: bound[i] in bound;
  }

  lemma ListedInPlace<T>(xs: seq<T>, entry: T -> Value)
    ensures |Listed(xs, entry).items| == |xs| && forall i | 0 <= i < |xs| :: Listed(xs, entry).items[i] == entry(xs[i])
  {
  }

  ghost predicate SocketEntry(v: Value, socket: Socket) {
    v == Group(map["address" := Text(socket.address), "port" := Num(Whole(socket.port))])
  }

  lemma SocketIsListed(socket: Socket)
    ensures SocketEntry(SocketGroup(socket), socket)
  {
  }

  lemma PortFields(s: Scope, o: Observation)
    requires o.port.Some? && Observed(Port, o).Group? && Has(s, "port", Observed(Port, o).members)
    ensures PortRead(s, o.port.value)
  {
    var bound, m := o.port.value, Observed(Port, o).members;
    FieldIsRead(s, "port", m, "loopback_only");
    FieldIsRead(s, "port", m, "bound");
    assert m["loopback_only"] == Bool(LoopbackOnly(bound)) && m["bound"] == Listed(bound, SocketGroup);
    PortIsWhole(s, bound, Listed(bound, SocketGroup).items);
  }

  lemma PortIsWhole(s: Scope, bound: seq<Socket>, items: seq<Value>)
    requires Reads(s, "port", "loopback_only", Bool(LoopbackOnly(bound))) && Reads(s, "port", "bound", List(items))
    requires items == Listed(bound, SocketGroup).items
    ensures PortRead(s, bound)
  {
    LoopbackByPlaces(bound);
    ListedInPlace(bound, SocketGroup);
    forall i | 0 <= i < |bound| ensures SocketEntry(items[i], bound[i]) {
      SocketIsListed(bound[i]);
    }
  }

  ghost predicate ParametersRead(s: Scope, r: ParametersReading) {
    && Reads(s, "parameters", "settings", Group(r.settings))
    && (r.unknown.None? ==> ReadsIfThere(s, "parameters", "unknown", None))
    && (r.unknown.Some? ==> exists items :: Reads(s, "parameters", "unknown", List(items)) && AreTexts(items, r.unknown.value))
  }

  lemma ParametersFields(s: Scope, o: Observation)
    requires o.parameters.Some? && Observed(Parameters, o).Group? && Has(s, "parameters", Observed(Parameters, o).members)
    ensures ParametersRead(s, o.parameters.value)
  {
    var r, m := o.parameters.value, Observed(Parameters, o).members;
    FieldIsRead(s, "parameters", m, "settings");
    FieldIsRead(s, "parameters", m, "unknown");
    if r.unknown.Some? {
      var list := Listed(r.unknown.value, (t: string) => Text(t));
      assert Reads(s, "parameters", "unknown", list) && AreTexts(list.items, r.unknown.value);
    }
  }

  ghost predicate PathsRead(s: Scope, resolved: map<string, string>) {
    exists m ::
      Reads(s, "paths", "resolved", Group(m)) && m.Keys == resolved.Keys && forall p | p in resolved :: m[p] == Text(resolved[p])
  }

  lemma PathsFields(s: Scope, o: Observation)
    requires o.paths.Some? && Observed(Paths, o).Group? && Has(s, "paths", Observed(Paths, o).members)
    ensures PathsRead(s, o.paths.value)
  {
    FieldIsRead(s, "paths", Observed(Paths, o).members, "resolved");
    assert Reads(s, "paths", "resolved", Group(map p | p in o.paths.value :: Text(o.paths.value[p])));
  }

  /** The entry of a rule of access, its address only where it has one. */
  ghost predicate RuleEntry(v: Value, r: AuthRule) {
    && v.Group? && v.members.Keys == {"method", "password_required", "local"} + (if r.address.Some? then {"address"} else {})
    && v.members["method"] == Text(r.method_) && v.members["password_required"] == Bool(r.passwordRequired)
    && v.members["local"] == Bool(r.local) && (r.address.Some? ==> v.members["address"] == Text(r.address.value))
  }

  ghost predicate RoleEntry(v: Value, r: Role) {
    v == Group(map["name" := Text(r.name), "can_login" := Bool(r.canLogin), "password_set" := Bool(r.passwordSet)])
  }

  ghost predicate AuthRead(s: Scope, rules: seq<AuthRule>) {
    exists items :: Reads(s, "auth", "rules", List(items)) && |items| == |rules| && forall i | 0 <= i < |rules| :: RuleEntry(items[i], rules[i])
  }

  ghost predicate AccountRead(s: Scope, roles: seq<Role>) {
    exists items :: Reads(s, "account", "roles", List(items)) && |items| == |roles| && forall i | 0 <= i < |roles| :: RoleEntry(items[i], roles[i])
  }

  lemma RuleIsListed(r: AuthRule)
    ensures RuleEntry(AuthGroup(r), r)
  {
  }

  lemma RoleIsListed(r: Role)
    ensures RoleEntry(RoleGroup(r), r)
  {
  }

  lemma AuthFields(s: Scope, o: Observation)
    requires o.auth.Some? && Observed(Auth, o).Group? && Has(s, "auth", Observed(Auth, o).members)
    ensures AuthRead(s, o.auth.value)
  {
    FieldIsRead(s, "auth", Observed(Auth, o).members, "rules");
    RulesListed(s, o.auth.value, Listed(o.auth.value, AuthGroup).items);
  }

  lemma RulesListed(s: Scope, rules: seq<AuthRule>, items: seq<Value>)
    requires Reads(s, "auth", "rules", List(items)) && List(items) == Listed(rules, AuthGroup)
    ensures AuthRead(s, rules)
  {
    ListedInPlace(rules, AuthGroup);
    forall i | 0 <= i < |rules| ensures RuleEntry(items[i], rules[i]) {
      RuleIsListed(rules[i]);
    }
  }

  lemma AccountFields(s: Scope, o: Observation)
    requires o.account.Some? && Observed(Account, o).Group? && Has(s, "account", Observed(Account, o).members)
    ensures AccountRead(s, o.account.value)
  {
    FieldIsRead(s, "account", Observed(Account, o).members, "roles");
    RolesListed(s, o.account.value, Listed(o.account.value, RoleGroup).items);
  }

  lemma RolesListed(s: Scope, roles: seq<Role>, items: seq<Value>)
    requires Reads(s, "account", "roles", List(items)) && List(items) == Listed(roles, RoleGroup)
    ensures AccountRead(s, roles)
  {
    ListedInPlace(roles, RoleGroup);
    forall i | 0 <= i < |roles| ensures RoleEntry(items[i], roles[i]) {
      RoleIsListed(roles[i]);
    }
  }

  /** The reading of the kind is in the scope, field by field. */
  ghost predicate KindRead(kind: Kind, s: Scope, o: Observation)
    requires !Unread(kind, o)
  {
    match kind
    case Service => ServiceRead(s, o.service.value)
    case Port => PortRead(s, o.port.value)
    case Connection => ConnectionRead(s, o.connection.value)
    case Version => VersionRead(s, o.version.value)
    case Parameters => ParametersRead(s, o.parameters.value)
    case Paths => PathsRead(s, o.paths.value)
    case Log => LogRead(s, o.log.value)
    case Backup => BackupRead(s, o.backup.value)
    case Auth => AuthRead(s, o.auth.value)
    case Account => AccountRead(s, o.account.value)
    case Initialization => InitializationRead(s, o.initialization.value)
  }

  lemma FieldsAreRead(kind: Kind, s: Scope, o: Observation)
    requires !Unread(kind, o) && Observed(kind, o).Group? && Has(s, KindName(kind), Observed(kind, o).members)
    ensures KindRead(kind, s, o)
  {
    match kind
    case Service => ServiceFields(s, o);
    case Port => PortFields(s, o);
    case Connection => ConnectionFields(s, o);
    case Version => VersionFields(s, o);
    case Parameters => ParametersFields(s, o);
    case Paths => PathsFields(s, o);
    case Log => LogFields(s, o);
    case Backup => BackupFields(s, o);
    case Auth => AuthFields(s, o);
    case Account => AccountFields(s, o);
    case Initialization => InitializationFields(s, o);
  }

  lemma ReadingsAreGroups(kind: Kind, o: Observation)
    requires !Unread(kind, o)
    ensures Observed(kind, o).Group?
  {
  }

  /** What the expressions of a profile read of an instance is what was observed of it, kind
      by kind and field by field; of a kind that was not observed every field is missing. */
  lemma InstanceIsRead(kind: Kind, plan: Plan, o: Observation)
    ensures !Unread(kind, o) ==> KindRead(kind, VerificationScope(plan, o), o)
    ensures Unread(kind, o) ==>
              forall key :: Evaluate(LeafNode(kind, key), VerificationScope(plan, o)) == Missing(KindNode(kind))
  {
    if Unread(kind, o) {
      forall key ensures Evaluate(LeafNode(kind, key), VerificationScope(plan, o)) == Missing(KindNode(kind)) {
        UnreadIsMissing(kind, plan, o, key);
      }
    } else {
      ReadingsAreGroups(kind, o);
      KindIsRead(kind, plan, o);
      FieldsAreRead(kind, VerificationScope(plan, o), o);
    }
  }

  /** A condition that asks whether the port is reachable from this machine alone is met
      exactly by an instance that holds a socket and none but on the loopback. */
  lemma LoopbackOnlyExactly(plan: Plan, o: Observation)
    requires o.port.Some?
    ensures Evaluate(FactAt("observed", "port", "loopback_only"), VerificationScope(plan, o)) == Val(Bool(true)) <==>
            |o.port.value| > 0 && forall i | 0 <= i < |o.port.value| :: o.port.value[i].address in {"127.0.0.1", "::1", "localhost"}
  {
    InstanceIsRead(Port, plan, o);
    assert PortRead(VerificationScope(plan, o), o.port.value);
  }

  /** What an expression reads under the plan is the document of the plan. */
  lemma PlanIsRead(plan: Plan, o: Observation, key: string)
    ensures var e := Attribute(Name("plan"), key);
            Evaluate(e, VerificationScope(plan, o)) == Resolve(plan.document, key, e)
  {
    assert Evaluate(Name("plan"), VerificationScope(plan, o)) == Val(Group(plan.document));
  }

  /** The units of bytes and none read in a condition what they read anywhere else. */
  lemma ConstantsAreRead(plan: Plan, o: Observation)
    ensures Evaluate(Name("none"), VerificationScope(plan, o)) == Val(Nothing)
    ensures forall unit | unit in Units.BYTE_UNITS ::
              Evaluate(Name(unit), VerificationScope(plan, o)) == Val(Num(Whole(Units.BYTE_UNITS[unit])))
  {
    NothingIsHidden();
    ScopeLeaves.ConstantsIn(VerificationScope(plan, o));
  }

  lemma NothingIsHidden()
    ensures "plan" !in ScopeBuilder.BaseScope() && "observed" !in ScopeBuilder.BaseScope()
  {
  }
}
