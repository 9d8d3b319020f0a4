// What a host no longer has of what a plan recorded about it.
module Drift {
  import opened Wrappers
  import Facts
  import ScopeBuilder

  /** One filesystem as a plan records it. */
  datatype Filesystem = Filesystem(mount: string, freeBytes: int, kind: Option<string>, rotational: Option<bool>)

  /** The host section of a plan, as far as it is compared. */
  datatype HostSection = HostSection(
    family: Option<string>, distro: Option<string>, version: Option<string>, arch: Option<string>,
    cores: Option<int>, memoryBytes: Option<int>, storage: seq<Filesystem>)

  datatype Identity = Family | Distro | Version | Arch
  datatype Capacity = Cores | TotalMemory

  const IDENTITY: seq<Identity> := [Family, Distro, Version, Arch]
  const CAPACITY: seq<Capacity> := [Cores, TotalMemory]

  datatype Difference =
    | Changed(fact: Identity, planned: string, observed: string)
    | Shrunk(amount: Capacity, before: int, now: int)
    | NotMounted(mount: string)
    | OtherKind(mount: string, planned: string, observed: string)
    | OtherRotation(mount: string, wasRotational: bool)

  function Named(h: HostSection, fact: Identity): Option<string> {
    match fact
    case Family => h.family
    case Distro => h.distro
    case Version => h.version
    case Arch => h.arch
  }

  function Amount(h: HostSection, capacity: Capacity): Option<int> {
    match capacity
    case Cores => h.cores
    case TotalMemory => h.memoryBytes
  }

  /** The entry a mount point stands for; listed twice, the later one. */
  function LastAt(storage: seq<Filesystem>, mount: string): Option<Filesystem> {
    if storage == [] then None
    else if storage[|storage| - 1].mount == mount then Some(storage[|storage| - 1])
    else LastAt(storage[..|storage| - 1], mount)
  }

  function IdentityOf(fact: Identity, p: HostSection, o: HostSection): seq<Difference> {
    var before, now := Named(p, fact), Named(o, fact);
    if before.None? || now.None? || before == now then [] else [Changed(fact, before.value, now.value)]
  }

  function CapacityOf(capacity: Capacity, p: HostSection, o: HostSection): seq<Difference> {
    var before, now := Amount(p, capacity), Amount(o, capacity);
    if before.None? || now.None? || now.value >= before.value then [] else [Shrunk(capacity, before.value, now.value)]
  }

  function OneFilesystem(p: Filesystem, o: Filesystem): seq<Difference> {
    (if p.kind.None? || o.kind.None? || p.kind == o.kind then [] else [OtherKind(p.mount, p.kind.value, o.kind.value)])
    + (if p.rotational.None? || o.rotational.None? || p.rotational == o.rotational then []
       else [OtherRotation(p.mount, p.rotational.value)])
  }

  function StorageOf(entry: Filesystem, storage: seq<Filesystem>): seq<Difference> {
    match LastAt(storage, entry.mount)
    case None => [NotMounted(entry.mount)]
    case Some(now) => OneFilesystem(entry, now)
  }

  function Collected<T>(items: seq<T>, each: T -> seq<Difference>): seq<Difference> {
    if items == [] then [] else Collected(items[..|items| - 1], each) + each(items[|items| - 1])
  }

  /** Every material way `o` is not the host `p` describes. */
  function Differences(p: HostSection, o: HostSection): seq<Difference> {
    Collected(IDENTITY, f => IdentityOf(f, p, o)) + Collected(CAPACITY, c => CapacityOf(c, p, o))
    + Collected(p.storage, e => StorageOf(e, o.storage))
  }

  // ------------------------------------------------------------- the loops, as written

  /** Each of the three comparisons is the same loop: look at one thing, append what was
      found, or go on. */
  method CollectLoop<T>(items: seq<T>, each: T -> seq<Difference>) returns (found: seq<Difference>)
    ensures found == Collected(items, each)
  {
    found := [];
    for i := 0 to |items|
      invariant found == Collected(items[..i], each)
    {
      assert items[..i + 1][..i] == items[..i];
      found := found + each(items[i]);
    }
    assert items[..|items|] == items;
  }

  method DifferencesAsWritten(p: HostSection, o: HostSection) returns (found: seq<Difference>)
    ensures found == Differences(p, o)
  {
    var identity := CollectLoop(IDENTITY, f => IdentityOf(f, p, o));
    var capacity := CollectLoop(CAPACITY, c => CapacityOf(c, p, o));
    var storage := CollectLoop(p.storage, e => StorageOf(e, o.storage));
    found := identity + capacity + storage;
  }

  // ------------------------------------------------------------------------------ laws

  lemma {:induction false} CollectedNothing<T>(items: seq<T>, each: T -> seq<Difference>)
    ensures Collected(items, each) == [] <==> forall x | x in items :: each(x) == []
  {
    if items != [] {
      var n := |items| - 1;
      CollectedNothing(items[..n], each);
      assert items == items[..n] + [items[n]];
    }
  }

  predicate Agree<T(==)>(before: Option<T>, now: Option<T>) {
    before.None? || now.None? || before == now
  }

  predicate NotLess(before: Option<int>, now: Option<int>) {
    before.Some? && now.Some? ==> now.value >= before.value
  }

  predicate Stands(entry: Filesystem, storage: seq<Filesystem>) {
    var now := LastAt(storage, entry.mount);
    now.Some? && Agree(entry.kind, now.value.kind) && Agree(entry.rotational, now.value.rotational)
  }

  /** The machine the plan describes is still there: what it is agrees wherever both sides
      say, there is no less of it, and every planned filesystem stands. */
  predicate StillTheMachine(p: HostSection, o: HostSection) {
    && Agree(p.family, o.family) && Agree(p.distro, o.distro) && Agree(p.version, o.version) && Agree(p.arch, o.arch)
    && NotLess(p.cores, o.cores) && NotLess(p.memoryBytes, o.memoryBytes)
    && forall e | e in p.storage :: Stands(e, o.storage)
  }

  lemma StorageStands(entry: Filesystem, storage: seq<Filesystem>)
    ensures StorageOf(entry, storage) == [] <==> Stands(entry, storage)
  {
  }

  /** Nothing is reported exactly when it is still that machine. */
  lemma NoDriftExactly(p: HostSection, o: HostSection)
    ensures Differences(p, o) == [] <==> StillTheMachine(p, o)
  {
    var identity: Identity -> seq<Difference> := f => IdentityOf(f, p, o);
    var capacity: Capacity -> seq<Difference> := c => CapacityOf(c, p, o);
    var storage: Filesystem -> seq<Difference> := e => StorageOf(e, o.storage);
    CollectedNothing(IDENTITY, identity);
    CollectedNothing(CAPACITY, capacity);
    CollectedNothing(p.storage, storage);
    assert Family in IDENTITY && Distro in IDENTITY && Version in IDENTITY && Arch in IDENTITY;
    assert Cores in CAPACITY && TotalMemory in CAPACITY;
    assert identity(Family) == [] <==> Agree(p.family, o.family);
    assert identity(Distro) == [] <==> Agree(p.distro, o.distro);
    assert identity(Version) == [] <==> Agree(p.version, o.version);
    assert identity(Arch) == [] <==> Agree(p.arch, o.arch);
    assert capacity(Cores) == [] <==> NotLess(p.cores, o.cores);
    assert capacity(TotalMemory) == [] <==> NotLess(p.memoryBytes, o.memoryBytes);
    forall e | e in p.storage ensures storage(e) == [] <==> Stands(e, o.storage) {
      StorageStands(e, o.storage);
    }
  }

  lemma {:induction false} LastAtIsListed(storage: seq<Filesystem>, mount: string)
    ensures LastAt(storage, mount).None? <==> forall e | e in storage :: e.mount != mount
    ensures LastAt(storage, mount).Some? ==> LastAt(storage, mount).value in storage && LastAt(storage, mount).value.mount == mount
  {
    if storage != [] {
      var n := |storage| - 1;
      LastAtIsListed(storage[..n], mount);
      assert storage == storage[..n] + [storage[n]];
    }
  }

  /** No two entries for one mount point contradict each other. */
  ghost predicate Coherent(storage: seq<Filesystem>) {
    forall e | e in storage :: Stands(e, storage)
  }

  predicate DistinctMounts(storage: seq<Filesystem>) {
    forall e, f | e in storage && f in storage && e.mount == f.mount :: e == f
  }

  lemma DistinctMountsAreCoherent(storage: seq<Filesystem>)
    requires DistinctMounts(storage)
    ensures Coherent(storage)
  {
    forall e | e in storage ensures Stands(e, storage) {
      LastAtIsListed(storage, e.mount);
    }
  }

  /** A host has not drifted from itself exactly when its own filesystems are coherent. */
  lemma ReflexiveExactly(h: HostSection)
    ensures Differences(h, h) == [] <==> Coherent(h.storage)
  {
    NoDriftExactly(h, h);
  }

  /** Everything that is compared was reported. */
  predicate FullyReported(h: HostSection) {
    && h.family.Some? && h.distro.Some? && h.version.Some? && h.arch.Some? && h.cores.Some? && h.memoryBytes.Some?
    && forall e | e in h.storage :: e.kind.Some? && e.rotational.Some?
  }

  /** No drift carries over a host in between that reported everything. */
  lemma TransitiveThroughReported(a: HostSection, b: HostSection, c: HostSection)
    requires Differences(a, b) == [] && Differences(b, c) == [] && FullyReported(b)
    ensures Differences(a, c) == []
  {
    NoDriftExactly(a, b);
    NoDriftExactly(b, c);
    NoDriftExactly(a, c);
    forall e | e in a.storage ensures Stands(e, c.storage) {
      LastAtIsListed(b.storage, e.mount);
      assert Stands(LastAt(b.storage, e.mount).value, c.storage);
    }
  }

  /** What `plan_section` always records: everything compared but whether storage spins,
      and at least one filesystem. */
  predicate Recorded(h: HostSection) {
    && h.family.Some? && h.distro.Some? && h.version.Some? && h.arch.Some? && h.cores.Some? && h.memoryBytes.Some?
    && h.storage != [] && forall e | e in h.storage :: e.kind.Some?
  }

  /** No drift carries over this host, between hosts of any shape. */
  ghost predicate CarriesOver(b: HostSection) {
    forall a, c | Differences(a, b) == [] && Differences(b, c) == [] :: Differences(a, c) == []
  }

  /** No drift carries over this host, between hosts as they are recorded. */
  ghost predicate CarriesOverRecorded(b: HostSection) {
    forall a, c | Recorded(a) && Recorded(c) && Differences(a, b) == [] && Differences(b, c) == [] ::
      Differences(a, c) == []
  }

  /** The host with one answer put wherever it gave none. */
  function FilledIn(h: HostSection, text: string, amount: int, spins: bool): HostSection {
    HostSection(
      OrElse(h.family, text), OrElse(h.distro, text), OrElse(h.version, text), OrElse(h.arch, text),
      OrElse(h.cores, amount), OrElse(h.memoryBytes, amount),
      seq(|h.storage|, i requires 0 <= i < |h.storage| =>
            var e := h.storage[i]; e.(kind := OrElse(e.kind, text), rotational := OrElse(e.rotational, spins))))
  }

  function OrElse<T>(o: Option<T>, t: T): Option<T> {
    if o.None? then Some(t) else o
  }

  lemma {:induction false} FilledInAt(h: HostSection, text: string, amount: int, spins: bool, i: nat)
    requires i < |h.storage| && DistinctMounts(h.storage)
    ensures var f := FilledIn(h, text, amount, spins).storage;
            LastAt(h.storage, h.storage[i].mount) == Some(h.storage[i]) && LastAt(f, h.storage[i].mount) == Some(f[i])
  {
    var f := FilledIn(h, text, amount, spins).storage;
    LastAtIsListed(h.storage, h.storage[i].mount);
    LastAtIsListed(f, h.storage[i].mount);
    assert f[i] in f && f[i].mount == h.storage[i].mount;
    var last := LastAt(f, h.storage[i].mount).value;
    var j :| 0 <= j < |f| && f[j] == last;
    assert h.storage[j] in h.storage && h.storage[j].mount == h.storage[i].mount;
  }

  /** A host has not drifted from itself filled in, either way round. */
  lemma FilledInIsNoDrift(h: HostSection, text: string, amount: int, spins: bool)
    requires DistinctMounts(h.storage)
    ensures Differences(FilledIn(h, text, amount, spins), h) == []
    ensures Differences(h, FilledIn(h, text, amount, spins)) == []
  {
    var f := FilledIn(h, text, amount, spins);
    NoDriftExactly(f, h);
    NoDriftExactly(h, f);
    forall e | e in f.storage ensures Stands(e, h.storage) {
      var i :| 0 <= i < |f.storage| && f.storage[i] == e;
      FilledInAt(h, text, amount, spins, i);
    }
    forall e | e in h.storage ensures Stands(e, f.storage) {
      var i :| 0 <= i < |h.storage| && h.storage[i] == e;
      FilledInAt(h, text, amount, spins, i);
    }
  }

  /** Filled in two ways that disagree, the two hosts differ wherever it gave no answer. */
  lemma FilledInApart(h: HostSection)
    requires DistinctMounts(h.storage)
    ensures Differences(FilledIn(h, "a", 1, true), FilledIn(h, "b", 0, false)) == [] ==> FullyReported(h)
  {
    var a, c := FilledIn(h, "a", 1, true), FilledIn(h, "b", 0, false);
    NoDriftExactly(a, c);
    assert "a" != "b";
    if StillTheMachine(a, c) {
      forall e | e in h.storage ensures e.kind.Some? && e.rotational.Some? {
        var i :| 0 <= i < |h.storage| && h.storage[i] == e;
        FilledInAt(h, "a", 1, true, i);
        FilledInAt(h, "b", 0, false, i);
        assert a.storage[i] in a.storage && Stands(a.storage[i], c.storage);
      }
    }
  }

  /** No drift carries over a host in between exactly when it reported everything that is
      compared; and the same between hosts as they are recorded. */
  lemma TransitiveExactly(b: HostSection)
    requires DistinctMounts(b.storage)
    ensures CarriesOver(b) <==> FullyReported(b)
    ensures Recorded(b) ==> (CarriesOverRecorded(b) <==> FullyReported(b))
  {
    var a, c := FilledIn(b, "a", 1, true), FilledIn(b, "b", 0, false);
    FilledInIsNoDrift(b, "a", 1, true);
    FilledInIsNoDrift(b, "b", 0, false);
    FilledInApart(b);
    if FullyReported(b) {
      forall a, c | Differences(a, b) == [] && Differences(b, c) == [] ensures Differences(a, c) == [] {
        TransitiveThroughReported(a, b, c);
      }
    }
    if Recorded(b) {
      FilledInIsRecorded(b, "a", 1, true);
      FilledInIsRecorded(b, "b", 0, false);
    }
  }

  lemma FilledInIsRecorded(h: HostSection, text: string, amount: int, spins: bool)
    requires Recorded(h)
    ensures Recorded(FilledIn(h, text, amount, spins))
  {
    var f := FilledIn(h, text, amount, spins).storage;
    forall e | e in f ensures e.kind.Some? {
      var i :| 0 <= i < |f| && f[i] == e;
      assert h.storage[i] in h.storage;
    }
  }

  /** One machine, as a plan records it, whose only filesystem says this of its storage. */
  function OnRoot(rotational: Option<bool>): HostSection {
    HostSection(Some("debian"), Some("debian"), Some("12"), Some("x86_64"), Some(4), Some(1024),
                [Filesystem("/", 512, Some("ext4"), rotational)])
  }

  lemma RootFilledIn(text: string, amount: int, spins: bool)
    ensures FilledIn(OnRoot(None), text, amount, spins) == OnRoot(Some(spins))
  {
    assert FilledIn(OnRoot(None), text, amount, spins).storage == OnRoot(Some(spins)).storage;
  }

  /** Through a host that did not say whether its storage spins, it does not carry over. */
  lemma NotTransitiveThroughSilence()
    ensures var a, b, c := OnRoot(Some(true)), OnRoot(None), OnRoot(Some(false));
            Recorded(a) && Recorded(b) && Recorded(c)
            && Differences(a, b) == [] && Differences(b, c) == [] && Differences(a, c) != []
  {
    var b := OnRoot(None);
    RootFilledIn("a", 1, true);
    RootFilledIn("b", 0, false);
    FilledInIsNoDrift(b, "a", 1, true);
    FilledInIsNoDrift(b, "b", 0, false);
    FilledInApart(b);
    assert b.storage[0] in b.storage;
  }

  predicate Grown(o: HostSection, g: HostSection) {
    && g == o.(cores := g.cores, memoryBytes := g.memoryBytes)
    && (o.cores.None? ==> g.cores.None?) && (o.memoryBytes.None? ==> g.memoryBytes.None?)
    && NotLess(o.cores, g.cores) && NotLess(o.memoryBytes, g.memoryBytes)
  }

  /** One difference no worse than another: the same, or less of the same amount gone. */
  predicate NoWorse(d: Difference, e: Difference) {
    d == e || (d.Shrunk? && e.Shrunk? && d.amount == e.amount && d.before == e.before && d.now >= e.now)
  }

  /** A host given more of something has not drifted any further, wherever it stood: every
      difference it still shows is one it already showed, or no worse. */
  lemma GrowthIsNotDrift(p: HostSection, o: HostSection, g: HostSection)
    requires Grown(o, g)
    ensures forall d | d in Differences(p, g) :: exists e :: e in Differences(p, o) && NoWorse(d, e)
    ensures Differences(p, o) == [] ==> Differences(p, g) == []
  {
    forall d | d in Differences(p, g) ensures exists e :: e in Differences(p, o) && NoWorse(d, e) {
      var e := NoWorseBefore(p, o, g, d);
    }
    if Differences(p, g) != [] {
      assert Differences(p, g)[0] in Differences(p, g);
    }
  }

  lemma NoWorseBefore(p: HostSection, o: HostSection, g: HostSection, d: Difference) returns (e: Difference)
    requires Grown(o, g) && d in Differences(p, g)
    ensures e in Differences(p, o) && NoWorse(d, e)
  {
    var identity, identity' := (f: Identity) => IdentityOf(f, p, g), (f: Identity) => IdentityOf(f, p, o);
    var capacity, capacity' := (c: Capacity) => CapacityOf(c, p, g), (c: Capacity) => CapacityOf(c, p, o);
    SameElsewhere(IDENTITY, identity, identity');
    if d in Collected(CAPACITY, capacity) {
      var c := CollectedFrom(CAPACITY, capacity, d);
      e := Shrunk(c, Amount(p, c).value, Amount(o, c).value);
      assert e in capacity'(c);
      CollectedHas(CAPACITY, capacity', c, e);
    } else {
      e := d;
    }
  }

  lemma {:induction false} CollectedFrom<T>(items: seq<T>, each: T -> seq<Difference>, d: Difference) returns (x: T)
    requires d in Collected(items, each)
    ensures x in items && d in each(x)
  {
    var n := |items| - 1;
    if d in each(items[n]) {
      x := items[n];
    } else {
      x := CollectedFrom(items[..n], each, d);
    }
  }

  lemma {:induction false} CollectedHas<T>(items: seq<T>, each: T -> seq<Difference>, x: T, d: Difference)
    requires x in items && d in each(x)
    ensures d in Collected(items, each)
  {
    var n := |items| - 1;
    assert items == items[..n] + [items[n]];
    if x != items[n] {
      CollectedHas(items[..n], each, x, d);
    }
  }

  /** The same filesystems with other amounts of space free. */
  predicate SameButFree(a: seq<Filesystem>, b: seq<Filesystem>) {
    |a| == |b| && forall i | 0 <= i < |a| :: b[i] == a[i].(freeBytes := b[i].freeBytes)
  }

  lemma {:induction false} LastAtButFree(a: seq<Filesystem>, b: seq<Filesystem>, mount: string)
    requires SameButFree(a, b)
    ensures LastAt(a, mount).None? <==> LastAt(b, mount).None?
    ensures LastAt(a, mount).Some? ==>
              LastAt(b, mount).value == LastAt(a, mount).value.(freeBytes := LastAt(b, mount).value.freeBytes)
  {
    if a != [] {
      LastAtButFree(a[..|a| - 1], b[..|b| - 1], mount);
    }
  }

  lemma {:induction false} CollectedButFree(a: seq<Filesystem>, b: seq<Filesystem>, x: seq<Filesystem>, y: seq<Filesystem>)
    requires SameButFree(a, b) && SameButFree(x, y)
    ensures Collected(a, e => StorageOf(e, x)) == Collected(b, e => StorageOf(e, y))
  {
    if a != [] {
      var n := |a| - 1;
      CollectedButFree(a[..n], b[..n], x, y);
      LastAtButFree(x, y, a[n].mount);
      assert StorageOf(a[n], x) == StorageOf(b[n], y);
    }
  }

  /** The differences do not depend on the free space of either side. */
  lemma FreeSpaceIsNotDrift(p: HostSection, o: HostSection, p': HostSection, o': HostSection)
    requires p' == p.(storage := p'.storage) && o' == o.(storage := o'.storage)
    requires SameButFree(p.storage, p'.storage) && SameButFree(o.storage, o'.storage)
    ensures Differences(p, o) == Differences(p', o')
  {
    CollectedButFree(p.storage, p'.storage, o.storage, o'.storage);
    SameElsewhere(IDENTITY, f => IdentityOf(f, p, o), f => IdentityOf(f, p', o'));
    SameElsewhere(CAPACITY, c => CapacityOf(c, p, o), c => CapacityOf(c, p', o'));
  }

  lemma {:induction false} SameElsewhere<T>(items: seq<T>, f: T -> seq<Difference>, g: T -> seq<Difference>)
    requires forall x | x in items :: f(x) == g(x)
    ensures Collected(items, f) == Collected(items, g)
  {
    if items != [] {
      SameElsewhere(items[..|items| - 1], f, g);
    }
  }

  // ------------------------------------------------------------------- a host and its plan

  /** The host section a plan carries, from the facts it was built on. */
  function SectionOf(facts: Facts.HostFacts): HostSection {
    HostSection(
      Some(facts.os.family), Some(facts.os.distro), Some(facts.os.version), Some(facts.arch),
      Some(facts.cpu.cores), Some(facts.memory.totalBytes),
      seq(|facts.mounts|, i requires 0 <= i < |facts.mounts| =>
            var m := facts.mounts[i]; Filesystem(m.path, m.freeBytes, Some(m.filesystem), m.rotational)))
  }

  /** The host a plan was built on is still that host however many facts were collected
      since, provided no two filesystems were reported at one path. */
  lemma MoreFactsAreNotDrift(f: Facts.HostFacts, g: Facts.HostFacts)
    requires ScopeBuilder.FactsReveal(f, g) && Facts.DistinctPaths(f.mounts)
    ensures Differences(SectionOf(f), SectionOf(g)) == []
  {
    var p, o := SectionOf(f), SectionOf(g);
    NoDriftExactly(p, o);
    forall e | e in p.storage ensures Stands(e, o.storage) {
      var i :| 0 <= i < |p.storage| && p.storage[i] == e;
      assert ScopeBuilder.MountReveals(f.mounts[i], g.mounts[i]);
      assert o.storage[i] in o.storage && o.storage[i].mount == e.mount;
      LastAtIsListed(o.storage, e.mount);
      var now := LastAt(o.storage, e.mount).value;
      var j :| 0 <= j < |o.storage| && o.storage[j] == now;
      assert ScopeBuilder.MountReveals(f.mounts[j], g.mounts[j]);
      assert f.mounts[i].path == f.mounts[j].path;
      assert i == j;
    }
  }
}
