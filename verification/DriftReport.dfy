// What a drift report says: every difference in it is one, with what was planned and what was
// found, and every one there is is in it.
module DriftReport {
  import opened Wrappers
  import opened Drift

  lemma CollectedExactly<T>(items: seq<T>, each: T -> seq<Difference>, d: Difference)
    ensures d in Collected(items, each) <==> exists x | x in items :: d in each(x)
  {
    if d in Collected(items, each) {
      var x := CollectedFrom(items, each, d);
    }
    forall x | x in items && d in each(x) ensures d in Collected(items, each) {
      CollectedHas(items, each, x, d);
    }
  }

  ghost predicate Differ<T>(before: Option<T>, now: Option<T>, x: T, y: T) {
    before == Some(x) && now == Some(y) && x != y
  }

  ghost predicate Turned(before: Option<bool>, now: Option<bool>, was: bool) {
    before.Some? && now.Some? && before.value == was && now.value != was
  }

  /** The entry the host has for a mount point now: the last of that name, if it has one. */
  ghost predicate Now(storage: seq<Filesystem>, mount: string, now: Filesystem) {
    exists i | 0 <= i < |storage| ::
      storage[i] == now && now.mount == mount && forall j | i < j < |storage| :: storage[j].mount != mount
  }

  ghost predicate IsDifference(p: HostSection, o: HostSection, d: Difference) {
    match d
    case Changed(Family, planned, observed) => Differ(p.family, o.family, planned, observed)
    case Changed(Distro, planned, observed) => Differ(p.distro, o.distro, planned, observed)
    case Changed(Version, planned, observed) => Differ(p.version, o.version, planned, observed)
    case Changed(Arch, planned, observed) => Differ(p.arch, o.arch, planned, observed)
    case Shrunk(Cores, before, now) => p.cores == Some(before) && o.cores == Some(now) && now < before
    case Shrunk(TotalMemory, before, now) => p.memoryBytes == Some(before) && o.memoryBytes == Some(now) && now < before
    case NotMounted(mount) =>
      (exists e | e in p.storage :: e.mount == mount) && forall e | e in o.storage :: e.mount != mount
    case OtherKind(mount, planned, observed) =>
      exists e, now | e in p.storage && e.mount == mount && Now(o.storage, mount, now) :: Differ(e.kind, now.kind, planned, observed)
    case OtherRotation(mount, was) =>
      exists e, now | e in p.storage && e.mount == mount && Now(o.storage, mount, now) :: Turned(e.rotational, now.rotational, was)
  }

  lemma {:induction false} LastAtIsNow(storage: seq<Filesystem>, mount: string)
    ensures forall now :: LastAt(storage, mount) == Some(now) <==> Now(storage, mount, now)
  {
    if storage != [] {
      var n := |storage| - 1;
      LastAtIsNow(storage[..n], mount);
      assert forall i | 0 <= i < n :: storage[..n][i] == storage[i];
      forall now ensures LastAt(storage, mount) == Some(now) <==> Now(storage, mount, now) {
        if storage[n].mount != mount {
          assert Now(storage, mount, now) ==> Now(storage[..n], mount, now);
          assert Now(storage[..n], mount, now) ==> Now(storage, mount, now);
        }
      }
    }
  }

  lemma OneFilesystemExactly(p: Filesystem, o: Filesystem, d: Difference)
    ensures d in OneFilesystem(p, o) <==>
            || (d.OtherKind? && d.mount == p.mount && Differ(p.kind, o.kind, d.planned, d.observed))
            || (d.OtherRotation? && d.mount == p.mount && Turned(p.rotational, o.rotational, d.wasRotational))
  {
    var kind: seq<Difference> :=
      if p.kind.None? || o.kind.None? || p.kind == o.kind then [] else [OtherKind(p.mount, p.kind.value, o.kind.value)];
    var rotation: seq<Difference> :=
      if p.rotational.None? || o.rotational.None? || p.rotational == o.rotational then []
      else [OtherRotation(p.mount, p.rotational.value)];
    assert OneFilesystem(p, o) == kind + rotation;
    assert d in kind <==> d.OtherKind? && d.mount == p.mount && Differ(p.kind, o.kind, d.planned, d.observed);
    assert d in rotation <==>
           d.OtherRotation? && d.mount == p.mount && Turned(p.rotational, o.rotational, d.wasRotational);
  }

  /** Of one planned filesystem: it is not there now, or it is another. */
  ghost predicate IsStorageDifference(entry: Filesystem, storage: seq<Filesystem>, d: Difference) {
    || (d == NotMounted(entry.mount) && forall e | e in storage :: e.mount != entry.mount)
    || (d.OtherKind? && d.mount == entry.mount
        && exists now | Now(storage, entry.mount, now) :: Differ(entry.kind, now.kind, d.planned, d.observed))
    || (d.OtherRotation? && d.mount == entry.mount
        && exists now | Now(storage, entry.mount, now) :: Turned(entry.rotational, now.rotational, d.wasRotational))
  }

  lemma StorageExactly(entry: Filesystem, storage: seq<Filesystem>, d: Difference)
    ensures d in StorageOf(entry, storage) <==> IsStorageDifference(entry, storage, d)
  {
    LastAtIsListed(storage, entry.mount);
    LastAtIsNow(storage, entry.mount);
    var last := LastAt(storage, entry.mount);
    if last.Some? {
      OneFilesystemExactly(entry, last.value, d);
      assert Now(storage, entry.mount, last.value);
      assert forall e :: Now(storage, entry.mount, e) ==> e == last.value;
    } else {
      assert forall e :: !Now(storage, entry.mount, e);
    }
  }

  lemma IdentityExactly(p: HostSection, o: HostSection, d: Difference)
    ensures d in Collected(IDENTITY, f => IdentityOf(f, p, o)) <==> d.Changed? && IsDifference(p, o, d)
  {
    var each: Identity -> seq<Difference> := f => IdentityOf(f, p, o);
    CollectedExactly(IDENTITY, each, d);
    assert Family in IDENTITY && Distro in IDENTITY && Version in IDENTITY && Arch in IDENTITY;
    if d.Changed? {
      assert d in each(d.fact) <==> IsDifference(p, o, d);
    }
  }

  lemma CapacityExactly(p: HostSection, o: HostSection, d: Difference)
    ensures d in Collected(CAPACITY, c => CapacityOf(c, p, o)) <==> d.Shrunk? && IsDifference(p, o, d)
  {
    var each: Capacity -> seq<Difference> := c => CapacityOf(c, p, o);
    CollectedExactly(CAPACITY, each, d);
    assert Cores in CAPACITY && TotalMemory in CAPACITY;
    if d.Shrunk? {
      assert d in each(d.amount) <==> IsDifference(p, o, d);
    }
  }

  /** A difference is reported exactly when it is one: what the machine is was said on both
      sides and is another, there is less of it, or a planned filesystem is not there or is
      not what it was; and it is reported with what was planned and what was found. */
  lemma DifferencesAreExact(p: HostSection, o: HostSection, d: Difference)
    ensures d in Differences(p, o) <==> IsDifference(p, o, d)
  {
    var each: Filesystem -> seq<Difference> := e => StorageOf(e, o.storage);
    IdentityExactly(p, o, d);
    CapacityExactly(p, o, d);
    CollectedExactly(p.storage, each, d);
    forall e | e in p.storage ensures d in each(e) <==> IsStorageDifference(e, o.storage, d) {
      StorageExactly(e, o.storage, d);
    }
  }
}
