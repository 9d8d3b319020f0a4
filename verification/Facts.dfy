// The facts of a host, and which of its filesystems a path lives on: the deepest of those
// carrying it.
module Facts {
  import opened Wrappers

  datatype OperatingSystem = OperatingSystem(
    family: string, distro: string, version: string,
    codename: Option<string>, prettyName: Option<string>, kernel: Option<string>)

  datatype Cpu = Cpu(cores: int, threads: Option<int>)

  datatype Memory = Memory(totalBytes: int, availableBytes: Option<int>, swapBytes: Option<int>)

  datatype Mount = Mount(
    path: string, filesystem: string, totalBytes: int, freeBytes: int,
    device: Option<string>, rotational: Option<bool>, options: seq<string>)

  datatype ListeningPort = ListeningPort(port: int, address: string, protocol: string)

  datatype InstalledService = InstalledService(name: string, state: string)

  datatype TimeSync = TimeSync(service: string, synchronized: bool)

  datatype KernelSettings = KernelSettings(
    swappiness: Option<int>, transparentHugepages: Option<string>, overcommitMemory: Option<int>)

  datatype Firewall = Firewall(service: string, active: bool, openPorts: seq<int>)

  datatype Privileges = Privileges(user: string, canEscalate: bool)

  datatype HostFacts = HostFacts(
    host: string, os: OperatingSystem, arch: string, cpu: Cpu, memory: Memory,
    mounts: seq<Mount>, listeningPorts: seq<ListeningPort>, services: seq<InstalledService>,
    locales: seq<string>, privileges: Privileges,
    reachableRepositories: Option<seq<string>>, timeSync: Option<TimeSync>,
    kernel: Option<KernelSettings>, firewall: Option<Firewall>)

  // ------------------------------------------------------------------------------ paths

  predicate Separator(c: char) {
    c == '/' || c == '\\'
  }

  function Flushed(part: string): seq<string> {
    if part == [] then [] else [part]
  }

  /** The parts of a path between its separators; empty parts are not parts. */
  function ComponentsAfter(part: string, rest: string): seq<string>
    decreases |rest|
  {
    if rest == [] then Flushed(part)
    else if Separator(rest[0]) then Flushed(part) + ComponentsAfter([], rest[1..])
    else ComponentsAfter(part + [rest[0]], rest[1..])
  }

  function PathComponents(path: string): seq<string> {
    ComponentsAfter([], path)
  }

  predicate Plain(part: string) {
    part != [] && forall c | c in part :: !Separator(c)
  }

  /** A path written from its parts. */
  function Joined(parts: seq<string>): string {
    if parts == [] then [] else "/" + parts[0] + Joined(parts[1..])
  }

  lemma {:induction false} ComponentsOfPart(head: string, part: string, rest: string)
    requires forall c | c in part :: !Separator(c)
    ensures ComponentsAfter(head, part + rest) == ComponentsAfter(head + part, rest)
    decreases |part|
  {
    if part == [] {
      assert part + rest == rest && head + part == head;
    } else {
      assert (part + rest)[1..] == part[1..] + rest;
      ComponentsOfPart(head + [part[0]], part[1..], rest);
      assert head + [part[0]] + part[1..] == head + part;
    }
  }

  /** Reading a path back gives the parts it was written from. */
  lemma {:induction false} ComponentsOfJoined(parts: seq<string>)
    requires forall p | p in parts :: Plain(p)
    ensures PathComponents(Joined(parts)) == parts
  {
    JoinedAfter([], parts);
  }

  lemma {:induction false} JoinedAfter(part: string, parts: seq<string>)
    requires forall p | p in parts :: Plain(p)
    ensures ComponentsAfter(part, Joined(parts)) == Flushed(part) + parts
    decreases |parts|
  {
    if parts == [] {
      assert Flushed(part) + parts == Flushed(part);
    } else {
      var text := Joined(parts);
      assert parts[0] in parts;
      assert text[1..] == parts[0] + Joined(parts[1..]);
      ComponentsOfPart([], parts[0], Joined(parts[1..]));
      assert [] + parts[0] == parts[0];
      JoinedAfter(parts[0], parts[1..]);
      assert [parts[0]] + parts[1..] == parts;
    }
  }

  lemma {:induction false} AfterSeparator(part: string, a: string, c: char, b: string)
    requires c == '/' || c == '\\'
    ensures ComponentsAfter(part, a + [c] + b) == ComponentsAfter(part, a) + ComponentsAfter([], b)
    decreases |a|
  {
    var s := a + [c] + b;
    if a == [] {
      assert s == [c] + b && s[1..] == b;
    } else {
      assert s[1..] == a[1..] + [c] + b;
      AfterSeparator(if Separator(a[0]) then [] else part + [a[0]], a[1..], c, b);
    }
  }

  /** A path is taken apart at a slash of either kind, and at nothing else. */
  lemma PathsSplitAtSlashes(a: string, c: char, b: string)
    ensures c == '/' || c == '\\' ==> PathComponents(a + [c] + b) == PathComponents(a) + PathComponents(b)
    ensures a != [] && '/' !in a && '\\' !in a ==> PathComponents(a) == [a]
    ensures PathComponents([]) == []
  {
    if c == '/' || c == '\\' {
      AfterSeparator([], a, c, b);
    }
    if a != [] && '/' !in a && '\\' !in a {
      ComponentsOfPart([], a, []);
      assert a + [] == a && [] + a == a;
    }
  }

  // ----------------------------------------------------------------------------- mounts

  function Depth(m: Mount): nat {
    |PathComponents(m.path)|
  }

  /** The parts of where it is mounted begin the parts of the path, so that `/var` carries
      `/var/lib` and not `/variable`. */
  predicate Carries(m: Mount, path: string) {
    PathComponents(m.path) <= PathComponents(path)
  }

  /** The first of the deepest. */
  function Deepest(mounts: seq<Mount>, path: string): Option<Mount> {
    if mounts == [] then None
    else
      var rest := Deepest(mounts[1..], path);
      if !Carries(mounts[0], path) then rest
      else if rest.Some? && Depth(rest.value) > Depth(mounts[0]) then rest
      else Some(mounts[0])
  }

  function MountFor(facts: HostFacts, path: string): Option<Mount> {
    Deepest(facts.mounts, path)
  }

  function FreeBytesFor(facts: HostFacts, path: string): Option<int> {
    match MountFor(facts, path)
    case None => None
    case Some(m) => Some(m.freeBytes)
  }

  predicate SharesMountWith(facts: HostFacts, path: string, other: string) {
    var mine, theirs := MountFor(facts, path), MountFor(facts, other);
    mine.Some? && theirs.Some? && mine.value.path == theirs.value.path
  }

  function PortInUse(listening: seq<ListeningPort>, port: int, protocol: string): Option<ListeningPort> {
    if listening == [] then None
    else if listening[0].port == port && listening[0].protocol == protocol then Some(listening[0])
    else PortInUse(listening[1..], port, protocol)
  }

  predicate Admits(firewall: Firewall, port: int) {
    !firewall.active || port in firewall.openPorts
  }

  function CanReach(facts: HostFacts, url: string): Option<bool> {
    match facts.reachableRepositories
    case None => None
    case Some(urls) => Some(url in urls)
  }

  /** The filesystems carrying one path form a chain: of any two, one lies on the other. */
  lemma CarriersFormAChain(m: Mount, n: Mount, path: string)
    requires Carries(m, path) && Carries(n, path)
    ensures PathComponents(m.path) <= PathComponents(n.path) || PathComponents(n.path) <= PathComponents(m.path)
  {
    var whole := PathComponents(path);
    assert PathComponents(m.path) == whole[..Depth(m)] && PathComponents(n.path) == whole[..Depth(n)];
  }

  /** The filesystem found carries the path and every other that does lies on or above it;
      there is none exactly when nothing carries the path. */
  lemma {:induction false} DeepestIsDeepest(mounts: seq<Mount>, path: string)
    ensures Deepest(mounts, path).None? <==> forall m | m in mounts :: !Carries(m, path)
    ensures Deepest(mounts, path).Some? ==>
              var found := Deepest(mounts, path).value;
              found in mounts && Carries(found, path)
              && forall m | m in mounts && Carries(m, path) :: PathComponents(m.path) <= PathComponents(found.path)
  {
    if mounts != [] {
      DeepestIsDeepest(mounts[1..], path);
      if Deepest(mounts, path).Some? {
        var found := Deepest(mounts, path).value;
        forall m | m in mounts && Carries(m, path) ensures PathComponents(m.path) <= PathComponents(found.path) {
          CarriersFormAChain(m, found, path);
          assert m == mounts[0] || m in mounts[1..];
        }
      }
    }
  }

  /** The filesystem at this place of the list is the one the path lives on: it carries the
      path, none of those that do is deeper, and none before it is as deep. */
  ghost predicate LivesAt(mounts: seq<Mount>, path: string, i: nat) {
    && i < |mounts| && Carries(mounts[i], path)
    && forall j | 0 <= j < |mounts| && Carries(mounts[j], path) ::
         |PathComponents(mounts[j].path)| <= |PathComponents(mounts[i].path)|
         && (j < i ==> |PathComponents(mounts[j].path)| < |PathComponents(mounts[i].path)|)
  }

  ghost predicate LivesOn(mounts: seq<Mount>, path: string, m: Mount) {
    exists i: nat :: LivesAt(mounts, path, i) && mounts[i] == m
  }

  /** The filesystem found is the one the path lives on, and there is no other. */
  lemma {:induction false} DeepestExactly(mounts: seq<Mount>, path: string)
    ensures Deepest(mounts, path).None? <==> forall m | m in mounts :: !Carries(m, path)
    ensures forall m :: Deepest(mounts, path) == Some(m) <==> LivesOn(mounts, path, m)
  {
    DeepestIsDeepest(mounts, path);
    if Deepest(mounts, path).Some? {
      var i := DeepestLivesAt(mounts, path);
      forall m | LivesOn(mounts, path, m) ensures m == mounts[i] {
        var k: nat :| LivesAt(mounts, path, k) && mounts[k] == m;
      }
    }
  }

  lemma {:induction false} DeepestLivesAt(mounts: seq<Mount>, path: string) returns (i: nat)
    requires Deepest(mounts, path).Some?
    ensures LivesAt(mounts, path, i) && mounts[i] == Deepest(mounts, path).value
  {
    var first, rest := mounts[0], mounts[1..];
    assert forall j | 0 < j < |mounts| :: mounts[j] == rest[j - 1];
    DeepestIsDeepest(rest, path);
    if Deepest(rest, path).None? {
      i := 0;
    } else {
      i := DeepestLivesAt(rest, path);
      i := i + 1;
      if Carries(first, path) && Depth(first) >= Depth(mounts[i]) {
        i := 0;
      }
    }
  }

  /** No two different filesystems reported at the same place, place meaning parts. */
  ghost predicate DistinctPlaces(mounts: seq<Mount>) {
    forall m, n | m in mounts && n in mounts && PathComponents(m.path) == PathComponents(n.path) :: m == n
  }

  lemma OrderDoesNotMatter(a: seq<Mount>, b: seq<Mount>, path: string)
    requires multiset(a) == multiset(b) && DistinctPlaces(a)
    ensures Deepest(a, path) == Deepest(b, path)
  {
    DeepestIsDeepest(a, path);
    DeepestIsDeepest(b, path);
    assert forall m :: m in a <==> m in multiset(a);
    assert forall m :: m in b <==> m in multiset(b);
  }

  ghost predicate OrderIndependent(mounts: seq<Mount>) {
    forall other: seq<Mount>, path: string {:trigger Deepest(other, path)} ::
      multiset(other) == multiset(mounts) ==> Deepest(other, path) == Deepest(mounts, path)
  }

  lemma FirstOfDeepestWins(m: Mount, rest: seq<Mount>)
    ensures Deepest([m] + rest, m.path) == Some(m)
  {
    assert ([m] + rest)[1..] == rest;
    DeepestIsDeepest(rest, m.path);
  }

  lemma MovedToFront(mounts: seq<Mount>, m: Mount) returns (rest: seq<Mount>)
    requires m in mounts
    ensures multiset([m] + rest) == multiset(mounts)
  {
    var i :| 0 <= i < |mounts| && mounts[i] == m;
    rest := mounts[..i] + mounts[i + 1..];
    assert mounts == mounts[..i] + [m] + mounts[i + 1..];
  }

  /** The answer never depends on the order of the list exactly when no two different
      filesystems are reported at the same place. */
  lemma OrderIndependentExactly(mounts: seq<Mount>)
    ensures OrderIndependent(mounts) <==> DistinctPlaces(mounts)
  {
    if DistinctPlaces(mounts) {
      forall other: seq<Mount>, path: string | multiset(other) == multiset(mounts)
        ensures Deepest(other, path) == Deepest(mounts, path)
      {
        OrderDoesNotMatter(mounts, other, path);
      }
    } else {
      var m, n :| m in mounts && n in mounts && PathComponents(m.path) == PathComponents(n.path) && m != n;
      var first := MovedToFront(mounts, m);
      var second := MovedToFront(mounts, n);
      FirstOfDeepestWins(m, first);
      FirstOfDeepestWins(n, second);
      SamePlaceSameCarriers([n] + second, m.path, n.path);
      assert Deepest([m] + first, m.path) != Deepest([n] + second, m.path);
    }
  }

  lemma {:induction false} SamePlaceSameCarriers(mounts: seq<Mount>, path: string, other: string)
    requires PathComponents(path) == PathComponents(other)
    ensures Deepest(mounts, path) == Deepest(mounts, other)
  {
    if mounts != [] {
      SamePlaceSameCarriers(mounts[1..], path, other);
    }
  }

  /** What the facts document refuses is two filesystems at the same path as text. */
  predicate DistinctPaths(mounts: seq<Mount>) {
    forall i, j | 0 <= i < j < |mounts| :: mounts[i].path != mounts[j].path
  }

  /** That is not enough: a trailing separator makes two texts of one place. */
  lemma DistinctPathsAreNotEnough()
    ensures var plain := Mount("/var", "ext4", 0, 0, None, None, []);
            var slashed := Mount("/var/", "xfs", 0, 0, None, None, []);
            DistinctPaths([plain, slashed]) && !OrderIndependent([plain, slashed])
  {
    var plain := Mount("/var", "ext4", 0, 0, None, None, []);
    var slashed := Mount("/var/", "xfs", 0, 0, None, None, []);
    VarHasOnePart();
    assert plain in [plain, slashed] && slashed in [plain, slashed];
    OrderIndependentExactly([plain, slashed]);
  }

  lemma VarHasOnePart()
    ensures PathComponents("/var") == PathComponents("/var/") == ["var"]
  {
    JoinedAfter([], ["var"]);
    assert Joined(["var"][1..]) == [];
    assert Joined(["var"]) == "/var";
    assert "/var/"[1..] == "var" + "/";
    ComponentsOfPart([], "var", "/");
    assert ComponentsAfter("var", "/") == ["var"] + ComponentsAfter([], []);
    assert [] + "var" == "var";
  }

  /** A path below another never lives on a shallower filesystem. */
  lemma LongerPathIsNoShallower(mounts: seq<Mount>, path: string, below: string)
    requires PathComponents(path) <= PathComponents(below) && Deepest(mounts, path).Some?
    ensures Deepest(mounts, below).Some?
    ensures PathComponents(Deepest(mounts, path).value.path) <= PathComponents(Deepest(mounts, below).value.path)
  {
    DeepestIsDeepest(mounts, path);
    DeepestIsDeepest(mounts, below);
    var found := Deepest(mounts, path).value;
    assert Carries(found, below);
  }

  /** Sharing a filesystem is an equivalence on the paths some filesystem carries, and only
      on those; where no two filesystems are reported at one path, each class is the paths
      one of them is the answer for. */
  lemma SharingIsAnEquivalence(facts: HostFacts, a: string, b: string, c: string)
    ensures SharesMountWith(facts, a, a) <==> exists m | m in facts.mounts :: Carries(m, a)
    ensures DistinctPaths(facts.mounts) ==>
              (SharesMountWith(facts, a, b) <==> MountFor(facts, a).Some? && MountFor(facts, a) == MountFor(facts, b))
    ensures SharesMountWith(facts, a, b) ==> SharesMountWith(facts, b, a)
    ensures SharesMountWith(facts, a, b) && SharesMountWith(facts, b, c) ==> SharesMountWith(facts, a, c)
  {
    DeepestIsDeepest(facts.mounts, a);
    DeepestIsDeepest(facts.mounts, b);
  }

  /** Two paths that share a filesystem share it with every path between them. */
  lemma SharingReachesBetween(facts: HostFacts, above: string, between: string, below: string)
    requires DistinctPlaces(facts.mounts) && SharesMountWith(facts, above, below)
    requires PathComponents(above) <= PathComponents(between) <= PathComponents(below)
    ensures SharesMountWith(facts, above, between)
  {
    LongerPathIsNoShallower(facts.mounts, above, between);
    LongerPathIsNoShallower(facts.mounts, between, below);
    DeepestIsDeepest(facts.mounts, above);
    DeepestIsDeepest(facts.mounts, between);
    SamePlace(PathComponents(MountFor(facts, above).value.path), PathComponents(MountFor(facts, between).value.path));
  }

  lemma SamePlace(a: seq<string>, b: seq<string>)
    requires a <= b <= a
    ensures a == b
  {
  }
}
