// Everything a gate or a sizing rule can name, fact by fact: what it reads on one host, for
// one request and one profile.
module ScopeLeaves {
  import opened Wrappers
  import opened Values
  import opened Expressions
  import opened Facts
  import opened Profiles
  import opened ScopeBuilder
  import opened ScopeReading
  import Units

  // ------------------------------------------------------------------- reading one field

  /** The expression comes to a group with these fields. */
  ghost predicate Has(s: Scope, e: Node, fields: map<string, Value>) {
    Evaluate(e, s) == Val(Group(fields))
  }

  /** A field of the group comes to this value. */
  ghost predicate Reads(s: Scope, e: Node, key: string, v: Value) {
    Evaluate(Attribute(e, key), s) == Val(v)
  }

  /** A field that may not have been collected comes to its value, or is missing. */
  ghost predicate ReadsIfCollected(s: Scope, e: Node, key: string, v: Option<Value>) {
    Evaluate(Attribute(e, key), s) == if v.Some? then Val(v.value) else Missing(Attribute(e, key))
  }

  lemma FieldIsRead(s: Scope, e: Node, fields: map<string, Value>, key: string)
    requires Has(s, e, fields) && key in fields
    ensures if fields[key].Unreported? then ReadsIfCollected(s, e, key, None) else Reads(s, e, key, fields[key])
  {
  }

  function SomeText(o: Option<string>): Option<Value> {
    if o.None? then None else Some(Text(o.value))
  }

  function SomeInt(o: Option<int>): Option<Value> {
    if o.None? then None else Some(Num(Whole(o.value)))
  }

  function SomeBool(o: Option<bool>): Option<Value> {
    if o.None? then None else Some(Bool(o.value))
  }

  // ---------------------------------------------------------------------------- the host

  function Host(name: string): Node {
    Attribute(Name("host"), name)
  }

  ghost predicate OsNamed(s: Scope, os: OperatingSystem) {
    && Reads(s, Host("os"), "family", Text(os.family)) && Reads(s, Host("os"), "distro", Text(os.distro))
    && Reads(s, Host("os"), "version", Text(os.version))
  }

  ghost predicate OsDetailed(s: Scope, os: OperatingSystem) {
    && ReadsIfCollected(s, Host("os"), "codename", SomeText(os.codename))
    && ReadsIfCollected(s, Host("os"), "pretty_name", SomeText(os.prettyName))
    && ReadsIfCollected(s, Host("os"), "kernel", SomeText(os.kernel))
  }

  lemma OsNames(s: Scope, os: OperatingSystem, m: map<string, Value>)
    requires Has(s, Host("os"), m) && OsGroup(os) == Group(m)
    ensures OsNamed(s, os)
  {
    FieldIsRead(s, Host("os"), m, "family");
    FieldIsRead(s, Host("os"), m, "distro");
    FieldIsRead(s, Host("os"), m, "version");
  }

  lemma OsDetails(s: Scope, os: OperatingSystem, m: map<string, Value>)
    requires Has(s, Host("os"), m) && OsGroup(os) == Group(m)
    ensures OsDetailed(s, os)
  {
    FieldIsRead(s, Host("os"), m, "codename");
    FieldIsRead(s, Host("os"), m, "pretty_name");
    FieldIsRead(s, Host("os"), m, "kernel");
  }

  ghost predicate CpuRead(s: Scope, cpu: Cpu) {
    Reads(s, Host("cpu"), "cores", Num(Whole(cpu.cores))) && ReadsIfCollected(s, Host("cpu"), "threads", SomeInt(cpu.threads))
  }

  lemma CpuFields(s: Scope, cpu: Cpu, m: map<string, Value>)
    requires Has(s, Host("cpu"), m) && CpuGroup(cpu) == Group(m)
    ensures CpuRead(s, cpu)
  {
    FieldIsRead(s, Host("cpu"), m, "cores");
    FieldIsRead(s, Host("cpu"), m, "threads");
  }

  ghost predicate MemoryRead(s: Scope, memory: Memory) {
    && Reads(s, Host("memory"), "total_bytes", Num(Whole(memory.totalBytes)))
    && ReadsIfCollected(s, Host("memory"), "available_bytes", SomeInt(memory.availableBytes))
    && ReadsIfCollected(s, Host("memory"), "swap_bytes", SomeInt(memory.swapBytes))
  }

  lemma MemoryFields(s: Scope, memory: Memory, m: map<string, Value>)
    requires Has(s, Host("memory"), m) && MemoryGroup(memory) == Group(m)
    ensures MemoryRead(s, memory)
  {
    FieldIsRead(s, Host("memory"), m, "total_bytes");
    FieldIsRead(s, Host("memory"), m, "available_bytes");
    FieldIsRead(s, Host("memory"), m, "swap_bytes");
  }

  ghost predicate KernelRead(s: Scope, kernel: Option<KernelSettings>) {
    && ReadsIfCollected(s, Host("kernel"), "swappiness", if kernel.None? then None else SomeInt(kernel.value.swappiness))
    && ReadsIfCollected(s, Host("kernel"), "transparent_hugepages",
                        if kernel.None? then None else SomeText(kernel.value.transparentHugepages))
    && ReadsIfCollected(s, Host("kernel"), "overcommit_memory", if kernel.None? then None else SomeInt(kernel.value.overcommitMemory))
  }

  lemma KernelFields(s: Scope, kernel: Option<KernelSettings>, m: map<string, Value>)
    requires Has(s, Host("kernel"), m) && KernelGroup(kernel) == Group(m)
    ensures KernelRead(s, kernel)
  {
    FieldIsRead(s, Host("kernel"), m, "swappiness");
    FieldIsRead(s, Host("kernel"), m, "transparent_hugepages");
    FieldIsRead(s, Host("kernel"), m, "overcommit_memory");
  }

  ghost predicate TimeRead(s: Scope, sync: Option<TimeSync>) {
    && ReadsIfCollected(s, Host("time_sync"), "service", if sync.None? then None else Some(Text(sync.value.service)))
    && ReadsIfCollected(s, Host("time_sync"), "synchronized", if sync.None? then None else Some(Bool(sync.value.synchronized)))
  }

  lemma TimeFields(s: Scope, sync: Option<TimeSync>, m: map<string, Value>)
    requires Has(s, Host("time_sync"), m) && TimeSyncGroup(sync) == Group(m)
    ensures TimeRead(s, sync)
  {
    FieldIsRead(s, Host("time_sync"), m, "service");
    FieldIsRead(s, Host("time_sync"), m, "synchronized");
  }

  ghost predicate FirewallRead(s: Scope, firewall: Option<Firewall>) {
    && ReadsIfCollected(s, Host("firewall"), "service", if firewall.None? then None else Some(Text(firewall.value.service)))
    && ReadsIfCollected(s, Host("firewall"), "active", if firewall.None? then None else Some(Bool(firewall.value.active)))
  }

  lemma FirewallFields(s: Scope, firewall: Option<Firewall>, m: map<string, Value>)
    requires Has(s, Host("firewall"), m) && FirewallGroup(firewall) == Group(m)
    ensures FirewallRead(s, firewall)
  {
    FieldIsRead(s, Host("firewall"), m, "service");
    FieldIsRead(s, Host("firewall"), m, "active");
  }

  ghost predicate AlwaysRead(s: Scope, facts: HostFacts) {
    && Reads(s, Name("host"), "name", Text(facts.host)) && Reads(s, Name("host"), "arch", Text(facts.arch))
    && (exists items ::
          Reads(s, Name("host"), "locales", Tuple(items)) && |items| == |facts.locales|
          && forall i | 0 <= i < |items| :: items[i] == Text(facts.locales[i]))
    && Reads(s, Host("privileges"), "user", Text(facts.privileges.user))
    && Reads(s, Host("privileges"), "can_escalate", Bool(facts.privileges.canEscalate))
  }

  lemma {:induction false} FilledKeeps(s: Scope, entries: seq<(string, Value)>)
    requires forall e | e in entries :: e.0 !in s
    ensures forall key | key in s :: key in Filled(s, entries) && Filled(s, entries)[key] == s[key]
  {
    if entries != [] {
      var n := |entries| - 1;
      assert entries[n] in entries && forall e | e in entries[..n] :: e in entries;
      FilledKeeps(s, entries[..n]);
    }
  }

  lemma AlwaysFields(s: Scope, facts: HostFacts, m: map<string, Value>)
    requires Has(s, Name("host"), m) && "name" in m && "arch" in m && "locales" in m && "privileges" in m
    requires forall key | key in HostAlways(facts) :: m[key] == HostAlways(facts)[key]
    ensures AlwaysRead(s, facts)
  {
    FieldIsRead(s, Name("host"), m, "name");
    FieldIsRead(s, Name("host"), m, "arch");
    FieldIsRead(s, Name("host"), m, "locales");
    FieldIsRead(s, Name("host"), m, "privileges");
    var privileges := map["user" := Text(facts.privileges.user), "can_escalate" := Bool(facts.privileges.canEscalate)];
    assert m["privileges"] == Group(privileges);
    FieldIsRead(s, Host("privileges"), privileges, "user");
    FieldIsRead(s, Host("privileges"), privileges, "can_escalate");
    var items := seq(|facts.locales|, i requires 0 <= i < |facts.locales| => Text(facts.locales[i]));
    assert Reads(s, Name("host"), "locales", Tuple(items));
  }

  lemma GroupsAreApart(facts: HostFacts)
    ensures |HostGroups(facts)| == 6
    ensures forall i, j | 0 <= i < j < 6 :: HostGroups(facts)[j].0 != HostGroups(facts)[i].0
  {
  }

  lemma GroupsHideNothing(facts: HostFacts)
    ensures forall e | e in HostGroups(facts) :: e.0 !in HostAlways(facts)
  {
  }

  lemma GroupIsRead(s: Scope, facts: HostFacts, i: nat)
    requires i < 6 && |HostGroups(facts)| == 6 && Evaluate(Name("host"), s) == Val(HostGroup(facts))
    requires HostGroups(facts)[i].1.Group?
    ensures Has(s, Host(HostGroups(facts)[i].0), HostGroups(facts)[i].1.members)
  {
    GroupsAreApart(facts);
    FilledAt(HostAlways(facts), HostGroups(facts), i);
    FieldIsRead(s, Name("host"), HostGroup(facts).members, HostGroups(facts)[i].0);
  }

  /** Everything under the host, each fact in its own place. */
  ghost predicate HostRead(s: Scope, facts: HostFacts) {
    && OsNamed(s, facts.os) && OsDetailed(s, facts.os) && CpuRead(s, facts.cpu) && MemoryRead(s, facts.memory) && KernelRead(s, facts.kernel)
    && TimeRead(s, facts.timeSync) && FirewallRead(s, facts.firewall) && AlwaysRead(s, facts)
  }

  lemma HostFields(s: Scope, facts: HostFacts)
    requires Evaluate(Name("host"), s) == Val(HostGroup(facts))
    ensures HostRead(s, facts)
  {
    GroupsAreApart(facts);
    GroupIsRead(s, facts, 0);
    GroupIsRead(s, facts, 1);
    GroupIsRead(s, facts, 2);
    GroupIsRead(s, facts, 3);
    GroupIsRead(s, facts, 4);
    GroupIsRead(s, facts, 5);
    OsNames(s, facts.os, OsGroup(facts.os).members);
    OsDetails(s, facts.os, OsGroup(facts.os).members);
    CpuFields(s, facts.cpu, CpuGroup(facts.cpu).members);
    MemoryFields(s, facts.memory, MemoryGroup(facts.memory).members);
    KernelFields(s, facts.kernel, KernelGroup(facts.kernel).members);
    TimeFields(s, facts.timeSync, TimeSyncGroup(facts.timeSync).members);
    FirewallFields(s, facts.firewall, FirewallGroup(facts.firewall).members);
    HostAlwaysKept(s, facts);
  }

  lemma HostAlwaysKept(s: Scope, facts: HostFacts)
    requires Evaluate(Name("host"), s) == Val(HostGroup(facts))
    ensures AlwaysRead(s, facts)
  {
    GroupsHideNothing(facts);
    FilledKeeps(HostAlways(facts), HostGroups(facts));
    var always := HostAlways(facts);
    assert "name" in always && "arch" in always && "locales" in always && "privileges" in always;
    AlwaysFields(s, facts, HostGroup(facts).members);
  }

  // ------------------------------------------------------- the request, the profile, a path

  ghost predicate InstanceRead(s: Scope, request: Request) {
    var e := Name("request");
    && Reads(s, e, "host", Text(request.host)) && Reads(s, e, "engine", Text(request.engine))
    && Reads(s, e, "environment", Text(request.environment)) && Reads(s, e, "instance", Text(request.instance))
  }

  ghost predicate VersionRead(s: Scope, request: Request) {
    var e := Name("request");
    && Reads(s, e, "version", Text(request.version)) && Reads(s, e, "port", Num(Whole(request.port)))
    && Reads(s, e, "chosen_version", Bool(request.chosenVersion))
  }

  lemma InstanceFields(s: Scope, request: Request, m: map<string, Value>)
    requires Has(s, Name("request"), m) && RequestGroup(request) == Group(m)
    ensures InstanceRead(s, request)
  {
    FieldIsRead(s, Name("request"), m, "host");
    FieldIsRead(s, Name("request"), m, "engine");
    FieldIsRead(s, Name("request"), m, "environment");
    FieldIsRead(s, Name("request"), m, "instance");
  }

  lemma VersionFields(s: Scope, request: Request, m: map<string, Value>)
    requires Has(s, Name("request"), m) && RequestGroup(request) == Group(m)
    ensures VersionRead(s, request)
  {
    FieldIsRead(s, Name("request"), m, "version");
    FieldIsRead(s, Name("request"), m, "port");
    FieldIsRead(s, Name("request"), m, "chosen_version");
  }

  ghost predicate ProfileRead(s: Scope, profile: Profile) {
    var e := Name("profile");
    && Reads(s, e, "engine", Text(profile.engine)) && Reads(s, e, "version", Text(profile.profileVersion))
    && Reads(s, e, "default_version", Text(profile.defaultVersion))
    && Reads(s, e, "default_port", Num(Whole(profile.defaultPort)))
    && Reads(s, e, "default_instance", Text(profile.defaultInstance))
    && ReadsIfCollected(s, e, "locale", SomeText(profile.defaultLocale))
  }

  lemma ProfileFields(s: Scope, profile: Profile, m: map<string, Value>)
    requires Has(s, Name("profile"), m) && ProfileGroup(profile) == Group(m)
    ensures ProfileRead(s, profile)
  {
    FieldIsRead(s, Name("profile"), m, "engine");
    FieldIsRead(s, Name("profile"), m, "version");
    FieldIsRead(s, Name("profile"), m, "default_version");
    FieldIsRead(s, Name("profile"), m, "default_port");
    FieldIsRead(s, Name("profile"), m, "default_instance");
    FieldIsRead(s, Name("profile"), m, "locale");
  }

  /** A planned path reads itself and the filesystem it lives on, and misses everything of
      that where it lives on none. */
  ghost predicate PathRead(s: Scope, e: Node, path: string, mount: Option<Mount>) {
    PlaceRead(s, e, path, mount) && MeasuresRead(s, e, mount)
  }

  ghost predicate PlaceRead(s: Scope, e: Node, path: string, mount: Option<Mount>) {
    && Reads(s, e, "path", Text(path))
    && ReadsIfCollected(s, e, "mount", if mount.None? then None else Some(Text(mount.value.path)))
    && ReadsIfCollected(s, e, "filesystem", if mount.None? then None else Some(Text(mount.value.filesystem)))
    && ReadsIfCollected(s, e, "read_only", if mount.None? then None else Some(Bool("ro" in mount.value.options)))
  }

  ghost predicate MeasuresRead(s: Scope, e: Node, mount: Option<Mount>) {
    && ReadsIfCollected(s, e, "free_bytes", if mount.None? then None else Some(Num(Whole(mount.value.freeBytes))))
    && ReadsIfCollected(s, e, "total_bytes", if mount.None? then None else Some(Num(Whole(mount.value.totalBytes))))
    && ReadsIfCollected(s, e, "rotational", if mount.None? then None else SomeBool(mount.value.rotational))
  }

  lemma PlaceFields(s: Scope, e: Node, path: string, mount: Option<Mount>, m: map<string, Value>)
    requires Has(s, e, m) && MountGroup(path, mount) == Group(m)
    ensures PlaceRead(s, e, path, mount)
  {
    FieldIsRead(s, e, m, "path");
    FieldIsRead(s, e, m, "mount");
    FieldIsRead(s, e, m, "filesystem");
    FieldIsRead(s, e, m, "read_only");
  }

  lemma MeasureFields(s: Scope, e: Node, path: string, mount: Option<Mount>, m: map<string, Value>)
    requires Has(s, e, m) && MountGroup(path, mount) == Group(m)
    ensures MeasuresRead(s, e, mount)
  {
    FieldIsRead(s, e, m, "free_bytes");
    FieldIsRead(s, e, m, "total_bytes");
    FieldIsRead(s, e, m, "rotational");
  }

  // -------------------------------------------------------------------------- the scope

  lemma RootsAreRead(facts: HostFacts, profile: Profile, request: Request, paths: seq<PlannedPath>)
    ensures var s := BuildScope(facts, profile, request, paths);
            && Evaluate(Name("host"), s) == Val(HostGroup(facts)) && Evaluate(Name("request"), s) == Val(RequestGroup(request))
            && Evaluate(Name("profile"), s) == Val(ProfileGroup(profile))
            && Evaluate(Name("path"), s) == Val(Group(PathsGroup(facts, paths)))
  {
    var entries := ScopeGroups(facts, profile, request, paths);
    FilledAt(BaseScope(), entries, 0);
    FilledAt(BaseScope(), entries, 1);
    FilledAt(BaseScope(), entries, 2);
    FilledAt(BaseScope(), entries, 3);
  }

  /** What gates and sizing rules read of a host, a request and a profile is what each of them
      says, fact by fact; a fact nobody collected is missing and never something else. */
  lemma EverythingIsRead(facts: HostFacts, profile: Profile, request: Request, paths: seq<PlannedPath>)
    ensures var s := BuildScope(facts, profile, request, paths);
            HostRead(s, facts) && InstanceRead(s, request) && VersionRead(s, request) && ProfileRead(s, profile)
  {
    var s := BuildScope(facts, profile, request, paths);
    RootsAreRead(facts, profile, request, paths);
    HostFields(s, facts);
    InstanceFields(s, request, RequestGroup(request).members);
    VersionFields(s, request, RequestGroup(request).members);
    ProfileFields(s, profile, ProfileGroup(profile).members);
  }

  /** And of a planned path, where it lives: on the deepest filesystem carrying it, the first
      of them reported, or on none. */
  lemma PathsAreRead(facts: HostFacts, profile: Profile, request: Request, paths: seq<PlannedPath>, i: nat)
    requires i < |paths| && forall j | i < j < |paths| :: paths[j].purpose != paths[i].purpose
    ensures var s, e := BuildScope(facts, profile, request, paths), Attribute(Name("path"), paths[i].purpose);
            || ((forall m | m in facts.mounts :: !Carries(m, paths[i].path)) && PathRead(s, e, paths[i].path, None))
            || (exists m :: LivesOn(facts.mounts, paths[i].path, m) && PathRead(s, e, paths[i].path, Some(m)))
  {
    var s, e := BuildScope(facts, profile, request, paths), Attribute(Name("path"), paths[i].purpose);
    var mount := MountFor(facts, paths[i].path);
    RootsAreRead(facts, profile, request, paths);
    PathAt(facts, paths, i);
    PlaceFields(s, e, paths[i].path, mount, MountGroup(paths[i].path, mount).members);
    MeasureFields(s, e, paths[i].path, mount, MountGroup(paths[i].path, mount).members);
    DeepestExactly(facts.mounts, paths[i].path);
    if mount.Some? {
      assert LivesOn(facts.mounts, paths[i].path, mount.value);
    }
  }

  const ROOTS: seq<string> := ["host", "request", "profile", "path"]

  lemma RootsAreNoConstants()
    ensures forall root | root in ROOTS :: root !in Units.BYTE_UNITS && root != "none"
  {
  }

  lemma RootsOfScope(facts: HostFacts, profile: Profile, request: Request, paths: seq<PlannedPath>)
    ensures forall e | e in ScopeGroups(facts, profile, request, paths) :: e.0 in ROOTS
  {
    assert ROOTS[0] in ROOTS && ROOTS[1] in ROOTS && ROOTS[2] in ROOTS && ROOTS[3] in ROOTS;
  }

  lemma BaseHolds(name: string)
    requires name !in Units.BYTE_UNITS && name != "none"
    ensures name !in BaseScope()
  {
  }

  lemma GroupsHideNoConstant(entries: seq<(string, Value)>)
    requires forall e | e in entries :: e.0 in ROOTS
    ensures forall e | e in entries :: e.0 !in BaseScope()
  {
    RootsAreNoConstants();
    forall e | e in entries ensures e.0 !in BaseScope() {
      BaseHolds(e.0);
    }
  }

  lemma UnitsAreInBase()
    ensures forall unit | unit in Units.BYTE_UNITS :: unit in BaseScope() && (unit != "none" ==> BaseScope()[unit] == Num(Whole(Units.BYTE_UNITS[unit])))
    ensures "none" in BaseScope() && BaseScope()["none"] == Nothing
  {
  }

  lemma NoneIsNoUnit()
    ensures "none" !in Units.BYTE_UNITS
  {
  }

  lemma ConstantIsRead(s: Scope, base: Scope, name: string)
    requires name in base && base[name] != Unreported && name in s && s[name] == base[name]
    ensures Evaluate(Name(name), s) == Val(base[name])
  {
  }

  lemma ConstantsIn(s: Scope)
    requires forall key | key in BaseScope() :: key in s && s[key] == BaseScope()[key]
    ensures Evaluate(Name("none"), s) == Val(Nothing)
    ensures forall unit | unit in Units.BYTE_UNITS :: Evaluate(Name(unit), s) == Val(Num(Whole(Units.BYTE_UNITS[unit])))
  {
    UnitsAreInBase();
    NoneIsNoUnit();
    ConstantIsRead(s, BaseScope(), "none");
    forall unit | unit in Units.BYTE_UNITS ensures Evaluate(Name(unit), s) == Val(Num(Whole(Units.BYTE_UNITS[unit]))) {
      ConstantIsRead(s, BaseScope(), unit);
    }
  }

  /** The units of bytes stand for their sizes and none for itself. */
  lemma ConstantsAreRead(facts: HostFacts, profile: Profile, request: Request, paths: seq<PlannedPath>)
    ensures Evaluate(Name("none"), BuildScope(facts, profile, request, paths)) == Val(Nothing)
    ensures forall unit | unit in Units.BYTE_UNITS ::
              Evaluate(Name(unit), BuildScope(facts, profile, request, paths)) == Val(Num(Whole(Units.BYTE_UNITS[unit])))
  {
    RootsOfScope(facts, profile, request, paths);
    GroupsHideNoConstant(ScopeGroups(facts, profile, request, paths));
    FilledKeeps(BaseScope(), ScopeGroups(facts, profile, request, paths));
    ConstantsIn(BuildScope(facts, profile, request, paths));
  }
}
