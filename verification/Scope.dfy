// The vocabulary gates and sizing rules are evaluated against, built from one host, one
// request and one profile. A fact nobody collected is in it as a marker, never absent.
module ScopeBuilder {
  import opened Wrappers
  import opened Values
  import opened Facts
  import opened Profiles
  import Units

  function BaseScope(): Scope {
    (map u | u in Units.BYTE_UNITS :: Num(Whole(Units.BYTE_UNITS[u]))) + map["none" := Nothing]
  }

  function OptionalText(o: Option<string>): Value {
    if o.None? then Unreported else Text(o.value)
  }

  function OptionalInt(o: Option<int>): Value {
    if o.None? then Unreported else Num(Whole(o.value))
  }

  function OptionalBool(o: Option<bool>): Value {
    if o.None? then Unreported else Bool(o.value)
  }

  function Int(i: int): Value {
    Num(Whole(i))
  }

  function OsGroup(os: OperatingSystem): Value {
    Group(map[
      "family" := Text(os.family), "distro" := Text(os.distro), "version" := Text(os.version),
      "codename" := OptionalText(os.codename), "pretty_name" := OptionalText(os.prettyName),
      "kernel" := OptionalText(os.kernel)])
  }

  function CpuGroup(cpu: Cpu): Value {
    Group(map["cores" := Int(cpu.cores), "threads" := OptionalInt(cpu.threads)])
  }

  function MemoryGroup(memory: Memory): Value {
    Group(map[
      "total_bytes" := Int(memory.totalBytes), "available_bytes" := OptionalInt(memory.availableBytes),
      "swap_bytes" := OptionalInt(memory.swapBytes)])
  }

  function KernelGroup(kernel: Option<KernelSettings>): Value {
    var k := if kernel.None? then KernelSettings(None, None, None) else kernel.value;
    Group(map[
      "swappiness" := OptionalInt(k.swappiness),
      "transparent_hugepages" := OptionalText(k.transparentHugepages),
      "overcommit_memory" := OptionalInt(k.overcommitMemory)])
  }

  function TimeSyncGroup(sync: Option<TimeSync>): Value {
    Group(map[
      "service" := if sync.None? then Unreported else Text(sync.value.service),
      "synchronized" := if sync.None? then Unreported else Bool(sync.value.synchronized)])
  }

  function FirewallGroup(firewall: Option<Firewall>): Value {
    Group(map[
      "service" := if firewall.None? then Unreported else Text(firewall.value.service),
      "active" := if firewall.None? then Unreported else Bool(firewall.value.active)])
  }

  /** What every facts document says about a host. */
  function HostAlways(facts: HostFacts): map<string, Value> {
    map[
      "name" := Text(facts.host), "arch" := Text(facts.arch),
      "locales" := Tuple(seq(|facts.locales|, i requires 0 <= i < |facts.locales| => Text(facts.locales[i]))),
      "privileges" := Group(map["user" := Text(facts.privileges.user), "can_escalate" := Bool(facts.privileges.canEscalate)])]
  }

  /** A mapping filled in key by key. */
  function Filled(s: Scope, entries: seq<(string, Value)>): Scope {
    if entries == [] then s else Filled(s, entries[..|entries| - 1])[entries[|entries| - 1].0 := entries[|entries| - 1].1]
  }

  function HostGroups(facts: HostFacts): seq<(string, Value)> {
    [("os", OsGroup(facts.os)), ("cpu", CpuGroup(facts.cpu)), ("memory", MemoryGroup(facts.memory)),
     ("kernel", KernelGroup(facts.kernel)), ("time_sync", TimeSyncGroup(facts.timeSync)),
     ("firewall", FirewallGroup(facts.firewall))]
  }

  function HostGroup(facts: HostFacts): Value {
    Group(Filled(HostAlways(facts), HostGroups(facts)))
  }

  function RequestGroup(request: Request): Value {
    Group(map[
      "host" := Text(request.host), "engine" := Text(request.engine), "version" := Text(request.version),
      "environment" := Text(request.environment), "instance" := Text(request.instance),
      "port" := Int(request.port), "chosen_version" := Bool(request.chosenVersion)])
  }

  function ProfileGroup(profile: Profile): Value {
    Group(map[
      "engine" := Text(profile.engine), "version" := Text(profile.profileVersion),
      "default_version" := Text(profile.defaultVersion), "default_port" := Int(profile.defaultPort),
      "default_instance" := Text(profile.defaultInstance), "locale" := OptionalText(profile.defaultLocale)])
  }

  predicate ReadOnly(m: Mount) {
    "ro" in m.options
  }

  function MountGroup(path: string, mount: Option<Mount>): Value {
    if mount.None? then
      Group(map[
        "path" := Text(path), "mount" := Unreported, "filesystem" := Unreported, "free_bytes" := Unreported,
        "total_bytes" := Unreported, "rotational" := Unreported, "read_only" := Unreported])
    else
      var m := mount.value;
      Group(map[
        "path" := Text(path), "mount" := Text(m.path), "filesystem" := Text(m.filesystem),
        "free_bytes" := Int(m.freeBytes), "total_bytes" := Int(m.totalBytes),
        "rotational" := OptionalBool(m.rotational), "read_only" := Bool(ReadOnly(m))])
  }

  function PathsGroup(facts: HostFacts, paths: seq<PlannedPath>): (m: map<string, Value>)
    ensures m.Keys == set p | p in paths :: p.purpose
  {
    if paths == [] then map[]
    else
      var n := |paths| - 1;
      assert paths == paths[..n] + [paths[n]];
      PathsGroup(facts, paths[..n])[paths[n].purpose := MountGroup(paths[n].path, MountFor(facts, paths[n].path))]
  }

  function ScopeGroups(facts: HostFacts, profile: Profile, request: Request, paths: seq<PlannedPath>): seq<(string, Value)> {
    [("host", HostGroup(facts)), ("request", RequestGroup(request)), ("profile", ProfileGroup(profile)),
     ("path", Group(PathsGroup(facts, paths)))]
  }

  function BuildScope(facts: HostFacts, profile: Profile, request: Request, paths: seq<PlannedPath>): Scope {
    Filled(BaseScope(), ScopeGroups(facts, profile, request, paths))
  }

  // ------------------------------------------------------------------- more facts in it

  predicate Reveals<T(==)>(before: Option<T>, after: Option<T>) {
    before.None? || before == after
  }

  /** A list nobody collected is an empty one, so that an empty list may turn out to be
      any other. */
  predicate ListReveals<T(==)>(before: seq<T>, after: seq<T>) {
    before == [] || before == after
  }

  predicate MountReveals(m: Mount, n: Mount) {
    Reveals(m.device, n.device) && Reveals(m.rotational, n.rotational) && ListReveals(m.options, n.options)
    && n == m.(device := n.device, rotational := n.rotational, options := n.options)
  }

  predicate FirewallReveals(a: Option<Firewall>, b: Option<Firewall>) {
    a.None? ||
    (b.Some? && ListReveals(a.value.openPorts, b.value.openPorts) && b.value == a.value.(openPorts := b.value.openPorts))
  }

  predicate KernelReveals(k: Option<KernelSettings>, l: Option<KernelSettings>) {
    k.None? ||
    (l.Some? && Reveals(k.value.swappiness, l.value.swappiness)
     && Reveals(k.value.transparentHugepages, l.value.transparentHugepages)
     && Reveals(k.value.overcommitMemory, l.value.overcommitMemory))
  }

  predicate OsReveals(a: OperatingSystem, b: OperatingSystem) {
    Reveals(a.codename, b.codename) && Reveals(a.prettyName, b.prettyName) && Reveals(a.kernel, b.kernel)
    && b == a.(codename := b.codename, prettyName := b.prettyName, kernel := b.kernel)
  }

  predicate MountsReveal(a: seq<Mount>, b: seq<Mount>) {
    |a| == |b| && forall i | 0 <= i < |a| :: MountReveals(a[i], b[i])
  }

  /** The same host, with some facts collected that had not been. */
  predicate FactsReveal(f: HostFacts, g: HostFacts) {
    && OsReveals(f.os, g.os)
    && f.cpu.cores == g.cpu.cores && Reveals(f.cpu.threads, g.cpu.threads)
    && f.memory.totalBytes == g.memory.totalBytes
    && Reveals(f.memory.availableBytes, g.memory.availableBytes) && Reveals(f.memory.swapBytes, g.memory.swapBytes)
    && MountsReveal(f.mounts, g.mounts)
    && Reveals(f.reachableRepositories, g.reachableRepositories)
    && Reveals(f.timeSync, g.timeSync) && FirewallReveals(f.firewall, g.firewall) && KernelReveals(f.kernel, g.kernel)
    && g == f.(os := g.os, cpu := g.cpu, memory := g.memory, mounts := g.mounts,
               reachableRepositories := g.reachableRepositories, timeSync := g.timeSync,
               kernel := g.kernel, firewall := g.firewall)
  }

  lemma {:induction false} DeepestReveals(a: seq<Mount>, b: seq<Mount>, path: string)
    requires MountsReveal(a, b)
    ensures Deepest(a, path).None? <==> Deepest(b, path).None?
    ensures Deepest(a, path).Some? ==> MountReveals(Deepest(a, path).value, Deepest(b, path).value)
  {
    if a != [] {
      DeepestReveals(a[1..], b[1..], path);
      assert MountReveals(a[0], b[0]);
    }
  }

  lemma MountGroupRefines(path: string, m: Option<Mount>, n: Option<Mount>)
    requires m.None? <==> n.None?
    requires m.Some? ==> MountReveals(m.value, n.value)
    ensures Refines(MountGroup(path, m), MountGroup(path, n)) <==> !(m.Some? && !ReadOnly(m.value) && ReadOnly(n.value))
  {
    if m.Some? {
      var a, b := MountGroup(path, m).members, MountGroup(path, n).members;
      assert a["read_only"] == Bool(ReadOnly(m.value)) && b["read_only"] == Bool(ReadOnly(n.value));
    }
  }

  /** The path lives on a filesystem that is mounted read only, which was not known. */
  predicate NewlyReadOnly(f: HostFacts, g: HostFacts, path: string) {
    var before, after := MountFor(f, path), MountFor(g, path);
    before.Some? && after.Some? && !ReadOnly(before.value) && ReadOnly(after.value)
  }

  predicate SomeNewlyReadOnly(f: HostFacts, g: HostFacts, paths: seq<PlannedPath>) {
    exists p | p in paths :: NewlyReadOnly(f, g, p.path)
  }

  lemma {:induction false} PathsGroupRefines(f: HostFacts, g: HostFacts, paths: seq<PlannedPath>)
    requires MountsReveal(f.mounts, g.mounts) && !SomeNewlyReadOnly(f, g, paths)
    ensures Refines(Group(PathsGroup(f, paths)), Group(PathsGroup(g, paths)))
  {
    if paths != [] {
      var n := |paths| - 1;
      assert paths[n] in paths && forall p | p in paths[..n] :: p in paths;
      PathsGroupRefines(f, g, paths[..n]);
      DeepestReveals(f.mounts, g.mounts, paths[n].path);
      MountGroupRefines(paths[n].path, MountFor(f, paths[n].path), MountFor(g, paths[n].path));
    }
  }

  lemma OsRefines(a: OperatingSystem, b: OperatingSystem)
    requires OsReveals(a, b)
    ensures Refines(OsGroup(a), OsGroup(b))
  {
  }

  lemma CpuAndMemoryRefine(f: HostFacts, g: HostFacts)
    requires f.cpu.cores == g.cpu.cores && Reveals(f.cpu.threads, g.cpu.threads)
    requires f.memory.totalBytes == g.memory.totalBytes
    requires Reveals(f.memory.availableBytes, g.memory.availableBytes) && Reveals(f.memory.swapBytes, g.memory.swapBytes)
    ensures Refines(CpuGroup(f.cpu), CpuGroup(g.cpu)) && Refines(MemoryGroup(f.memory), MemoryGroup(g.memory))
  {
  }

  lemma KernelRefines(k: Option<KernelSettings>, l: Option<KernelSettings>)
    requires KernelReveals(k, l)
    ensures Refines(KernelGroup(k), KernelGroup(l))
  {
  }

  lemma ServicesRefine(f: HostFacts, g: HostFacts)
    requires Reveals(f.timeSync, g.timeSync) && FirewallReveals(f.firewall, g.firewall)
    ensures Refines(TimeSyncGroup(f.timeSync), TimeSyncGroup(g.timeSync))
    ensures Refines(FirewallGroup(f.firewall), FirewallGroup(g.firewall))
  {
  }

  /** The same keys in the same order, each value with no fewer facts in it. */
  ghost predicate EntriesRefine(a: seq<(string, Value)>, b: seq<(string, Value)>) {
    |a| == |b| && forall i | 0 <= i < |a| :: a[i].0 == b[i].0 && Refines(a[i].1, b[i].1)
  }

  lemma {:induction false} FilledRefines(s: Scope, a: seq<(string, Value)>, b: seq<(string, Value)>)
    requires EntriesRefine(a, b)
    ensures ScopeRefines(Filled(s, a), Filled(s, b))
  {
    if a == [] {
      forall n | n in s ensures Refines(s[n], s[n]) {
        RefinesReflexive(s[n]);
      }
    } else {
      FilledRefines(s, a[..|a| - 1], b[..|b| - 1]);
    }
  }

  lemma {:induction false} FilledKeys(s: Scope, entries: seq<(string, Value)>)
    ensures Filled(s, entries).Keys == s.Keys + set e | e in entries :: e.0
  {
    if entries != [] {
      var n := |entries| - 1;
      FilledKeys(s, entries[..n]);
      assert entries == entries[..n] + [entries[n]];
    }
  }

  lemma HostRefines(f: HostFacts, g: HostFacts)
    requires FactsReveal(f, g)
    ensures Refines(HostGroup(f), HostGroup(g))
  {
    OsRefines(f.os, g.os);
    CpuAndMemoryRefine(f, g);
    KernelRefines(f.kernel, g.kernel);
    ServicesRefine(f, g);
    HostGroupsRefine(f, g);
    assert HostAlways(f) == HostAlways(g);
    FilledRefines(HostAlways(f), HostGroups(f), HostGroups(g));
  }

  lemma HostGroupsRefine(f: HostFacts, g: HostFacts)
    requires Refines(OsGroup(f.os), OsGroup(g.os)) && Refines(CpuGroup(f.cpu), CpuGroup(g.cpu))
    requires Refines(MemoryGroup(f.memory), MemoryGroup(g.memory)) && Refines(KernelGroup(f.kernel), KernelGroup(g.kernel))
    requires Refines(TimeSyncGroup(f.timeSync), TimeSyncGroup(g.timeSync))
    requires Refines(FirewallGroup(f.firewall), FirewallGroup(g.firewall))
    ensures EntriesRefine(HostGroups(f), HostGroups(g))
  {
    NamedRefine([OsGroup(f.os), CpuGroup(f.cpu), MemoryGroup(f.memory), KernelGroup(f.kernel),
                 TimeSyncGroup(f.timeSync), FirewallGroup(f.firewall)],
                [OsGroup(g.os), CpuGroup(g.cpu), MemoryGroup(g.memory), KernelGroup(g.kernel),
                 TimeSyncGroup(g.timeSync), FirewallGroup(g.firewall)]);
  }

  lemma NamedRefine(x: seq<Value>, y: seq<Value>)
    requires |x| == 6 && |y| == 6 && forall i | 0 <= i < 6 :: Refines(x[i], y[i])
    ensures EntriesRefine([("os", x[0]), ("cpu", x[1]), ("memory", x[2]), ("kernel", x[3]), ("time_sync", x[4]), ("firewall", x[5])],
                          [("os", y[0]), ("cpu", y[1]), ("memory", y[2]), ("kernel", y[3]), ("time_sync", y[4]), ("firewall", y[5])])
  {
  }

  /** Collecting more facts about a host refines the vocabulary built from it, the same
      names everywhere and every leaf that was reported the same, where no planned path turns
      out to live on a filesystem mounted read only. */
  lemma MoreFactsRefineTheScope(f: HostFacts, g: HostFacts, profile: Profile, request: Request, paths: seq<PlannedPath>)
    requires FactsReveal(f, g) && !SomeNewlyReadOnly(f, g, paths)
    ensures ScopeRefines(BuildScope(f, profile, request, paths), BuildScope(g, profile, request, paths))
  {
    HostRefines(f, g);
    PathsGroupRefines(f, g, paths);
    RefinesReflexive(RequestGroup(request));
    RefinesReflexive(ProfileGroup(profile));
    FilledRefines(BaseScope(), ScopeGroups(f, profile, request, paths), ScopeGroups(g, profile, request, paths));
  }

  /** The names a scope has, whatever the host reported. */
  lemma ScopeNames(facts: HostFacts, profile: Profile, request: Request, paths: seq<PlannedPath>)
    ensures BuildScope(facts, profile, request, paths).Keys ==
            BaseScope().Keys + {"host", "request", "profile", "path"}
  {
    var entries := ScopeGroups(facts, profile, request, paths);
    FilledKeys(BaseScope(), entries);
    assert (set e | e in entries :: e.0) == {entries[0].0, entries[1].0, entries[2].0, entries[3].0};
  }
}
