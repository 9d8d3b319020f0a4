// What an expression reads when it names a fact: the fact as the host reported it, or the
// marker for one nobody collected, through every layer the scope is built in.
module ScopeReading {
  import opened Wrappers
  import opened Values
  import opened Expressions
  import opened Facts
  import opened Profiles
  import opened ScopeBuilder

  lemma {:induction false} FilledAt(s: Scope, entries: seq<(string, Value)>, i: nat)
    requires i < |entries| && forall j | i < j < |entries| :: entries[j].0 != entries[i].0
    ensures entries[i].0 in Filled(s, entries) && Filled(s, entries)[entries[i].0] == entries[i].1
  {
    var n := |entries| - 1;
    if i < n {
      var front := entries[..n];
      assert front[i] == entries[i] && entries[n].0 != entries[i].0;
      forall j | i < j < |front| ensures front[j].0 != front[i].0 {
        assert front[j] == entries[j];
      }
      FilledAt(s, front, i);
    }
  }

  lemma {:induction false} PathAt(facts: HostFacts, paths: seq<PlannedPath>, i: nat)
    requires i < |paths| && forall j | i < j < |paths| :: paths[j].purpose != paths[i].purpose
    ensures paths[i].purpose in PathsGroup(facts, paths)
    ensures PathsGroup(facts, paths)[paths[i].purpose] == MountGroup(paths[i].path, MountFor(facts, paths[i].path))
  {
    var n := |paths| - 1;
    if i < n {
      var front := paths[..n];
      assert front[i] == paths[i] && paths[n].purpose != paths[i].purpose;
      forall j | i < j < |front| ensures front[j].purpose != front[i].purpose {
        assert front[j] == paths[j];
      }
      PathAt(facts, front, i);
    }
  }

  /** Where a path of an expression leads: one group inside another. */
  lemma ReadingAGroup(root: string, name: string, s: Scope, outer: map<string, Value>, inner: map<string, Value>, key: string)
    requires root in s && s[root] == Group(outer) && name in outer && outer[name] == Group(inner)
    ensures var e := Attribute(Attribute(Name(root), name), key); Evaluate(e, s) == Resolve(inner, key, e)
  {
    assert Evaluate(Name(root), s) == Val(Group(outer));
    assert Evaluate(Attribute(Name(root), name), s) == Val(Group(inner));
  }

  function FactAt(root: string, name: string, key: string): Node {
    Attribute(Attribute(Name(root), name), key)
  }

  lemma HostIsRead(facts: HostFacts, profile: Profile, request: Request, paths: seq<PlannedPath>,
                   i: nat, name: string, inner: map<string, Value>, key: string)
    requires i < |HostGroups(facts)| && HostGroups(facts)[i] == (name, Group(inner))
    requires forall j | i < j < |HostGroups(facts)| :: HostGroups(facts)[j].0 != name
    ensures var e := FactAt("host", name, key);
            Evaluate(e, BuildScope(facts, profile, request, paths)) == Resolve(inner, key, e)
  {
    var entries := ScopeGroups(facts, profile, request, paths);
    FilledAt(BaseScope(), entries, 0);
    FilledAt(HostAlways(facts), HostGroups(facts), i);
    ReadingAGroup("host", name, BuildScope(facts, profile, request, paths),
                  Filled(HostAlways(facts), HostGroups(facts)), inner, key);
  }

  /** Each group of the host is the last of its name. */
  lemma HostGroupsAreApart(facts: HostFacts, i: nat)
    requires 1 <= i <= 3
    ensures forall j | i < j < |HostGroups(facts)| :: HostGroups(facts)[j].0 != HostGroups(facts)[i].0
  {
  }

  lemma CpuIsRead(facts: HostFacts, profile: Profile, request: Request, paths: seq<PlannedPath>)
    ensures Evaluate(FactAt("host", "cpu", "cores"), BuildScope(facts, profile, request, paths)) == Val(Int(facts.cpu.cores))
  {
    HostGroupsAreApart(facts, 1);
    HostIsRead(facts, profile, request, paths, 1, "cpu", CpuGroup(facts.cpu).members, "cores");
  }

  lemma MemoryIsRead(facts: HostFacts, profile: Profile, request: Request, paths: seq<PlannedPath>)
    ensures var s := BuildScope(facts, profile, request, paths);
            && Evaluate(FactAt("host", "memory", "total_bytes"), s) == Val(Int(facts.memory.totalBytes))
            && ReadWhereCollected(FactAt("host", "memory", "swap_bytes"), s, facts.memory.swapBytes)
  {
    HostGroupsAreApart(facts, 2);
    HostIsRead(facts, profile, request, paths, 2, "memory", MemoryGroup(facts.memory).members, "total_bytes");
    HostIsRead(facts, profile, request, paths, 2, "memory", MemoryGroup(facts.memory).members, "swap_bytes");
  }

  lemma KernelIsRead(facts: HostFacts, profile: Profile, request: Request, paths: seq<PlannedPath>)
    ensures ReadWhereCollected(FactAt("host", "kernel", "swappiness"), BuildScope(facts, profile, request, paths),
                               if facts.kernel.None? then None else facts.kernel.value.swappiness)
  {
    HostGroupsAreApart(facts, 3);
    HostIsRead(facts, profile, request, paths, 3, "kernel", KernelGroup(facts.kernel).members, "swappiness");
  }

  /** The whole group of kernel settings, holes and all. */
  lemma KernelGroupIsRead(facts: HostFacts, profile: Profile, request: Request, paths: seq<PlannedPath>)
    ensures Evaluate(Attribute(Name("host"), "kernel"), BuildScope(facts, profile, request, paths)) ==
            Val(KernelGroup(facts.kernel))
  {
    HostGroupsAreApart(facts, 3);
    var s := BuildScope(facts, profile, request, paths);
    FilledAt(BaseScope(), ScopeGroups(facts, profile, request, paths), 0);
    FilledAt(HostAlways(facts), HostGroups(facts), 3);
    assert Evaluate(Name("host"), s) == Val(HostGroup(facts));
  }

  /** What sizing and gates read of the machine itself is what it reported: always for its
      cores and memory, and for what may not have been collected only where it was. */
  lemma MachineIsRead(facts: HostFacts, profile: Profile, request: Request, paths: seq<PlannedPath>)
    ensures var s := BuildScope(facts, profile, request, paths);
            && Evaluate(FactAt("host", "cpu", "cores"), s) == Val(Int(facts.cpu.cores))
            && Evaluate(FactAt("host", "memory", "total_bytes"), s) == Val(Int(facts.memory.totalBytes))
            && ReadWhereCollected(FactAt("host", "memory", "swap_bytes"), s, facts.memory.swapBytes)
            && ReadWhereCollected(FactAt("host", "kernel", "swappiness"), s,
                                  if facts.kernel.None? then None else facts.kernel.value.swappiness)
  {
    CpuIsRead(facts, profile, request, paths);
    MemoryIsRead(facts, profile, request, paths);
    KernelIsRead(facts, profile, request, paths);
  }

  ghost predicate ReadWhereCollected(e: Node, s: Scope, fact: Option<int>) {
    Evaluate(e, s) == if fact.None? then Missing(e) else Val(Int(fact.value))
  }

  /** What an expression reads under a planned path is the filesystem that path lives on,
      the deepest one carrying it; nothing, as a fact nobody collected, where none does; and
      a purpose the layout does not have is a mistake in the expression instead. */
  lemma PathIsRead(facts: HostFacts, profile: Profile, request: Request, paths: seq<PlannedPath>, i: nat)
    requires i < |paths| && forall j | i < j < |paths| :: paths[j].purpose != paths[i].purpose
    ensures var s := BuildScope(facts, profile, request, paths);
            && ReadWhereCollected(FactAt("path", paths[i].purpose, "free_bytes"), s, FreeBytesFor(facts, paths[i].path))
            && (Evaluate(FactAt("path", paths[i].purpose, "filesystem"), s).Missing? <==>
                forall m | m in facts.mounts :: !Carries(m, paths[i].path))
  {
    PathGroupIsRead(facts, profile, request, paths, i, "free_bytes");
    PathGroupIsRead(facts, profile, request, paths, i, "filesystem");
    DeepestIsDeepest(facts.mounts, paths[i].path);
  }

  lemma PathGroupIsRead(facts: HostFacts, profile: Profile, request: Request, paths: seq<PlannedPath>, i: nat, key: string)
    requires i < |paths| && forall j | i < j < |paths| :: paths[j].purpose != paths[i].purpose
    ensures var e := FactAt("path", paths[i].purpose, key);
            Evaluate(e, BuildScope(facts, profile, request, paths))
            == Resolve(MountGroup(paths[i].path, MountFor(facts, paths[i].path)).members, key, e)
  {
    var entries := ScopeGroups(facts, profile, request, paths);
    FilledAt(BaseScope(), entries, 3);
    PathAt(facts, paths, i);
    ReadingAGroup("path", paths[i].purpose, BuildScope(facts, profile, request, paths), PathsGroup(facts, paths),
                  MountGroup(paths[i].path, MountFor(facts, paths[i].path)).members, key);
  }

  /** A layout is keyed by purpose, one path for each. */
  ghost predicate DistinctPurposes(paths: seq<PlannedPath>) {
    forall i, j | 0 <= i < j < |paths| :: paths[i].purpose != paths[j].purpose
  }

  /** With more facts the scope is refined exactly when no planned path turns out to live on
      a filesystem mounted read only: nobody having collected the options of a mount reads as
      the answer no. */
  lemma ScopeRefinesExactly(f: HostFacts, g: HostFacts, profile: Profile, request: Request, paths: seq<PlannedPath>)
    requires FactsReveal(f, g) && DistinctPurposes(paths)
    ensures ScopeRefines(BuildScope(f, profile, request, paths), BuildScope(g, profile, request, paths)) <==>
            !SomeNewlyReadOnly(f, g, paths)
  {
    if SomeNewlyReadOnly(f, g, paths) {
      var p :| p in paths && NewlyReadOnly(f, g, p.path);
      var i :| 0 <= i < |paths| && paths[i] == p;
      PathGroupsApart(f, g, profile, request, paths, i);
    } else {
      MoreFactsRefineTheScope(f, g, profile, request, paths);
    }
  }

  lemma PathGroupsApart(f: HostFacts, g: HostFacts, profile: Profile, request: Request, paths: seq<PlannedPath>, i: nat)
    requires FactsReveal(f, g) && DistinctPurposes(paths) && i < |paths| && NewlyReadOnly(f, g, paths[i].path)
    ensures !ScopeRefines(BuildScope(f, profile, request, paths), BuildScope(g, profile, request, paths))
  {
    FilledAt(BaseScope(), ScopeGroups(f, profile, request, paths), 3);
    FilledAt(BaseScope(), ScopeGroups(g, profile, request, paths), 3);
    PathAt(f, paths, i);
    PathAt(g, paths, i);
    var path := paths[i].path;
    DeepestReveals(f.mounts, g.mounts, path);
    MountGroupRefines(path, MountFor(f, path), MountFor(g, path));
    GroupsApart(PathsGroup(f, paths), PathsGroup(g, paths), paths[i].purpose);
  }

  lemma GroupsApart(a: map<string, Value>, b: map<string, Value>, key: string)
    requires key in a && key in b && !Refines(a[key], b[key])
    ensures !Refines(Group(a), Group(b))
  {
  }

  lemma UnplannedPurposeIsAMistake(facts: HostFacts, profile: Profile, request: Request, paths: seq<PlannedPath>,
                                   purpose: string, key: string)
    requires forall p | p in paths :: p.purpose != purpose
    ensures Evaluate(FactAt("path", purpose, key), BuildScope(facts, profile, request, paths)) == Wrong(Undefined)
  {
    var s, entries := BuildScope(facts, profile, request, paths), ScopeGroups(facts, profile, request, paths);
    FilledAt(BaseScope(), entries, 3);
    assert Evaluate(Name("path"), s) == Val(Group(PathsGroup(facts, paths)));
    assert Evaluate(Attribute(Name("path"), purpose), s) == Wrong(Undefined);
  }
}
