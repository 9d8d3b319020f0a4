// The twenty rules that apply to every engine: what each makes of one host.
module SharedRules {
  import opened Wrappers
  import opened Facts
  import opened Profiles
  import opened PreflightModel
  import ScopeBuilder

  /** Support that ends within this many days is warned about. */
  const EOL_HORIZON := 365

  /** Everything the shared rules read. Days are counted as whole numbers. */
  datatype Context = Context(
    facts: HostFacts, profile: Profile, request: Request, paths: seq<PlannedPath>,
    version: SupportedVersion, today: int)

  function Asked(holds: bool): Verdict {
    if holds then Satisfied else Unmet
  }

  function Reachable(c: Context): Verdict {
    Asked(c.facts.host == c.request.host)
  }

  function Privilege(c: Context): Verdict {
    Asked(c.facts.privileges.canEscalate)
  }

  function OsSupported(c: Context): Verdict {
    Asked(exists e | e in c.version.supportedOs :: e.distro == c.facts.os.distro && c.facts.os.version in e.versions)
  }

  function ArchSupported(c: Context): Verdict {
    Asked(c.facts.arch in c.version.arch)
  }

  function AtLeast(required: Option<int>, found: int): Verdict {
    match required
    case None => Undecidable
    case Some(floor) => Asked(found >= floor)
  }

  function MinCores(c: Context): Verdict {
    AtLeast(c.profile.minimumCores, c.facts.cpu.cores)
  }

  function MinMemory(c: Context): Verdict {
    AtLeast(c.profile.minimumMemory, c.facts.memory.totalBytes)
  }

  /** A path that would be created where nothing can be. */
  predicate Unusable(facts: HostFacts, planned: PlannedPath) {
    var mount := MountFor(facts, planned.path);
    mount.None? || ScopeBuilder.ReadOnly(mount.value)
  }

  function PathsWritable(c: Context): Verdict {
    Asked(forall p | p in c.paths :: !Unusable(c.facts, p))
  }

  /** A path that states a minimum and lies on a filesystem the host reports. */
  predicate FreeSpaceChecked(facts: HostFacts, planned: PlannedPath) {
    planned.minFree.Some? && FreeBytesFor(facts, planned.path).Some?
  }

  predicate Short(facts: HostFacts, planned: PlannedPath) {
    FreeSpaceChecked(facts, planned) && FreeBytesFor(facts, planned.path).value < planned.minFree.value
  }

  function FreeSpace(c: Context): Verdict {
    if !exists p | p in c.paths :: FreeSpaceChecked(c.facts, p) then Undecidable
    else Asked(forall p | p in c.paths :: !Short(c.facts, p))
  }

  function PortFree(c: Context): Verdict {
    Asked(PortInUse(c.facts.listeningPorts, c.request.port, "tcp").None?)
  }

  predicate Conflicting(profile: Profile, name: string) {
    exists conflict | conflict in profile.conflicts :: Matches(conflict, name)
  }

  function NotInstalled(c: Context): Verdict {
    if c.profile.conflicts == [] then Undecidable
    else Asked(forall s | s in c.facts.services :: !Conflicting(c.profile, s.name))
  }

  function RepoReachable(c: Context): Verdict {
    if c.facts.os.family !in c.profile.packages then Undecidable
    else
      match c.profile.packages[c.facts.os.family].repository
      case None => Undecidable
      case Some(repository) =>
        match CanReach(c.facts, repository.url)
        case None => Undecidable
        case Some(reachable) => Asked(reachable)
  }

  /** One locale name in the spelling the C library lists it under: the codeset loses its
      case and its punctuation, the rest stays as it is. */
  function CanonicalLocale(locale: string): string {
    var head, modifier := Before(locale, '@'), From(locale, '@');
    var name, codeset := Before(head, '.'), From(head, '.');
    name + (if codeset == [] then [] else "." + Reduced(codeset[1..])) + modifier
  }

  function Before(s: string, c: char): string {
    if s == [] || s[0] == c then [] else [s[0]] + Before(s[1..], c)
  }

  function From(s: string, c: char): string {
    if s == [] || s[0] == c then s else From(s[1..], c)
  }

  function Reduced(s: string): string {
    if s == [] then []
    else
      var rest := Reduced(s[1..]);
      if 'a' <= s[0] <= 'z' || '0' <= s[0] <= '9' then [s[0]] + rest
      else if 'A' <= s[0] <= 'Z' then [(s[0] as int + 32) as char] + rest
      else rest
  }

  function LocalePresent(c: Context): Verdict {
    match c.profile.defaultLocale
    case None => Undecidable
    case Some(wanted) => Asked(exists l | l in c.facts.locales :: CanonicalLocale(l) == CanonicalLocale(wanted))
  }

  predicate Considered(c: Context, planned: PlannedPath, other: string) {
    other in planned.preferSeparateFrom && PathNamed(c.paths, other).Some?
  }

  predicate Sharing(c: Context, planned: PlannedPath, other: string) {
    Considered(c, planned, other) && SharesMountWith(c.facts, planned.path, PathNamed(c.paths, other).value.path)
  }

  function SeparateMounts(c: Context): Verdict {
    if !exists p | p in c.paths :: exists o | o in p.preferSeparateFrom :: Considered(c, p, o) then Undecidable
    else Asked(forall p | p in c.paths :: forall o | o in p.preferSeparateFrom :: !Sharing(c, p, o))
  }

  predicate Unusual(c: Context, planned: PlannedPath) {
    var mount := MountFor(c.facts, planned.path);
    mount.Some? && mount.value.filesystem !in c.profile.preferredFilesystems
  }

  function Filesystem(c: Context): Verdict {
    if c.profile.preferredFilesystems == [] then Undecidable
    else Asked(forall p | p in c.paths :: !Unusual(c, p))
  }

  function Hugepages(c: Context): Verdict {
    if c.profile.preferredHugepages == [] then Undecidable
    else if c.facts.kernel.None? || c.facts.kernel.value.transparentHugepages.None? then Undecidable
    else Asked(c.facts.kernel.value.transparentHugepages.value in c.profile.preferredHugepages)
  }

  function Swappiness(c: Context): Verdict {
    if c.profile.maxSwappiness.None? then Undecidable
    else if c.facts.kernel.None? || c.facts.kernel.value.swappiness.None? then Undecidable
    else Asked(c.facts.kernel.value.swappiness.value <= c.profile.maxSwappiness.value)
  }

  function TimeSynchronized(c: Context): Verdict {
    match c.facts.timeSync
    case None => Undecidable
    case Some(sync) => Asked(sync.synchronized)
  }

  function Eol(c: Context): Verdict {
    Asked(c.version.eol - c.today > EOL_HORIZON)
  }

  function NotDefault(c: Context): Verdict {
    Asked(c.request.version == c.profile.defaultVersion)
  }

  function FirewallState(c: Context): Verdict {
    match c.facts.firewall
    case None => Undecidable
    case Some(firewall) => Asked(!firewall.active || Admits(firewall, c.request.port))
  }

  /** What a shared rule asks, by name. */
  datatype Question =
    | AskReachable | AskPrivilege | AskOsSupported | AskArchSupported | AskMinCores | AskMinMemory
    | AskPathsWritable | AskFreeSpace | AskPortFree | AskNotInstalled | AskRepoReachable | AskLocalePresent
    | AskSeparateMounts | AskFilesystem | AskHugepages | AskSwappiness | AskTimeSynchronized | AskEol
    | AskNotDefault | AskFirewallState

  function Answer(question: Question, c: Context): Verdict {
    match question
    case AskReachable => Reachable(c)
    case AskPrivilege => Privilege(c)
    case AskOsSupported => OsSupported(c)
    case AskArchSupported => ArchSupported(c)
    case AskMinCores => MinCores(c)
    case AskMinMemory => MinMemory(c)
    case AskPathsWritable => PathsWritable(c)
    case AskFreeSpace => FreeSpace(c)
    case AskPortFree => PortFree(c)
    case AskNotInstalled => NotInstalled(c)
    case AskRepoReachable => RepoReachable(c)
    case AskLocalePresent => LocalePresent(c)
    case AskSeparateMounts => SeparateMounts(c)
    case AskFilesystem => Filesystem(c)
    case AskHugepages => Hugepages(c)
    case AskSwappiness => Swappiness(c)
    case AskTimeSynchronized => TimeSynchronized(c)
    case AskEol => Eol(c)
    case AskNotDefault => NotDefault(c)
    case AskFirewallState => FirewallState(c)
  }

  datatype SharedRule = SharedRule(identifier: string, severity: Severity, question: Question)

  /** Blocks first, in the order they are listed. */
  function AllShared(): seq<SharedRule> {
    [SharedRule("host.reachable", Block, AskReachable),
     SharedRule("host.privilege", Block, AskPrivilege),
     SharedRule("os.supported", Block, AskOsSupported),
     SharedRule("arch.supported", Block, AskArchSupported),
     SharedRule("cpu.min_cores", Block, AskMinCores),
     SharedRule("mem.min_total", Block, AskMinMemory),
     SharedRule("disk.paths_writable", Block, AskPathsWritable),
     SharedRule("disk.free_space", Block, AskFreeSpace),
     SharedRule("port.free", Block, AskPortFree),
     SharedRule("engine.not_installed", Block, AskNotInstalled),
     SharedRule("repo.reachable", Block, AskRepoReachable),
     SharedRule("locale.present", Block, AskLocalePresent),
     SharedRule("disk.separate_mounts", Warn, AskSeparateMounts),
     SharedRule("disk.filesystem", Warn, AskFilesystem),
     SharedRule("os.thp", Warn, AskHugepages),
     SharedRule("os.swappiness", Warn, AskSwappiness),
     SharedRule("time.sync", Warn, AskTimeSynchronized),
     SharedRule("version.eol", Warn, AskEol),
     SharedRule("version.not_default", Warn, AskNotDefault),
     SharedRule("firewall.state", Warn, AskFirewallState)]
  }

  // ------------------------------------------------------------- the loops, as written

  /** The loop that collects what cannot be written to. */
  method PathsWritableLoop(c: Context) returns (v: Verdict)
    ensures v == PathsWritable(c)
  {
    var unusable: seq<PlannedPath> := [];
    for i := 0 to |c.paths|
      invariant forall p :: p in unusable <==> p in c.paths[..i] && Unusable(c.facts, p)
    {
      if Unusable(c.facts, c.paths[i]) {
        unusable := unusable + [c.paths[i]];
      }
    }
    assert c.paths[..|c.paths|] == c.paths;
    if unusable != [] {
      assert unusable[0] in unusable;
      return Unmet;
    }
    return Satisfied;
  }

  /** The loop that counts the paths it could check and collects the ones that fall short. */
  method FreeSpaceLoop(c: Context) returns (v: Verdict)
    ensures v == FreeSpace(c)
  {
    var short: seq<PlannedPath> := [];
    var checked := 0;
    for i := 0 to |c.paths|
      invariant checked == 0 <==> forall p | p in c.paths[..i] :: !FreeSpaceChecked(c.facts, p)
      invariant 0 <= checked
      invariant forall p :: p in short <==> p in c.paths[..i] && Short(c.facts, p)
    {
      var planned := c.paths[i];
      if planned.minFree.None? {
        continue;
      }
      var free := FreeBytesFor(c.facts, planned.path);
      if free.None? {
        continue;
      }
      checked := checked + 1;
      assert FreeSpaceChecked(c.facts, c.paths[i]) && c.paths[i] in c.paths[..i + 1];
      if free.value < planned.minFree.value {
        short := short + [planned];
      }
    }
    assert c.paths[..|c.paths|] == c.paths;
    if checked == 0 {
      return Undecidable;
    }
    if short != [] {
      assert short[0] in short;
      return Unmet;
    }
    return Satisfied;
  }

  /** The inner loop: what one path would rather not share with, and does. */
  method SeparationsOf(c: Context, planned: PlannedPath) returns (considered: nat, sharing: seq<string>)
    ensures considered == 0 <==> forall o | o in planned.preferSeparateFrom :: !Considered(c, planned, o)
    ensures forall o :: o in sharing <==> o in planned.preferSeparateFrom && Sharing(c, planned, o)
  {
    var others := planned.preferSeparateFrom;
    considered, sharing := 0, [];
    for j := 0 to |others|
      invariant considered == 0 <==> forall o | o in others[..j] :: !Considered(c, planned, o)
      invariant forall o :: o in sharing <==> o in others[..j] && Sharing(c, planned, o)
    {
      var companion := PathNamed(c.paths, others[j]);
      if companion.None? {
        continue;
      }
      considered := considered + 1;
      assert Considered(c, planned, others[j]) && others[j] in others[..j + 1];
      if SharesMountWith(c.facts, planned.path, companion.value.path) {
        sharing := sharing + [others[j]];
      }
    }
    assert others[..|others|] == others;
  }

  /** The loop over paths around it. */
  method SeparateMountsLoop(c: Context) returns (v: Verdict)
    ensures v == SeparateMounts(c)
  {
    var considered := 0;
    var sharing: seq<string> := [];
    for i := 0 to |c.paths|
      invariant 0 <= considered
      invariant considered == 0 <==>
                forall p | p in c.paths[..i] :: forall o | o in p.preferSeparateFrom :: !Considered(c, p, o)
      invariant sharing == [] <==>
                forall p | p in c.paths[..i] :: forall o | o in p.preferSeparateFrom :: !Sharing(c, p, o)
    {
      var more, shared := SeparationsOf(c, c.paths[i]);
      assert shared != [] ==> shared[0] in shared;
      assert c.paths[..i + 1] == c.paths[..i] + [c.paths[i]];
      considered, sharing := considered + more, sharing + shared;
    }
    assert c.paths[..|c.paths|] == c.paths;
    if considered == 0 {
      return Undecidable;
    }
    if sharing != [] {
      return Unmet;
    }
    return Satisfied;
  }

  /** The loop that collects the filesystems the engine is not usually run on. */
  method FilesystemLoop(c: Context) returns (v: Verdict)
    ensures v == Filesystem(c)
  {
    if c.profile.preferredFilesystems == [] {
      return Undecidable;
    }
    var unusual: seq<PlannedPath> := [];
    for i := 0 to |c.paths|
      invariant forall p :: p in unusual <==> p in c.paths[..i] && Unusual(c, p)
    {
      var mount := MountFor(c.facts, c.paths[i].path);
      if mount.None? || mount.value.filesystem in c.profile.preferredFilesystems {
        continue;
      }
      unusual := unusual + [c.paths[i]];
    }
    assert c.paths[..|c.paths|] == c.paths;
    if unusual != [] {
      assert unusual[0] in unusual;
      return Unmet;
    }
    return Satisfied;
  }

  /** The loop that collects what is installed and conflicts. */
  method NotInstalledLoop(c: Context) returns (v: Verdict)
    ensures v == NotInstalled(c)
  {
    if c.profile.conflicts == [] {
      return Undecidable;
    }
    var found: seq<InstalledService> := [];
    for i := 0 to |c.facts.services|
      invariant forall s :: s in found <==> s in c.facts.services[..i] && Conflicting(c.profile, s.name)
    {
      if Conflicting(c.profile, c.facts.services[i].name) {
        found := found + [c.facts.services[i]];
      }
    }
    assert c.facts.services[..|c.facts.services|] == c.facts.services;
    if found != [] {
      assert found[0] in found;
      return Unmet;
    }
    return Satisfied;
  }

  // ------------------------------------------------------------------------------ laws

  /** The same questions about the same host, of which more was collected. */
  predicate ContextReveals(c: Context, d: Context) {
    ScopeBuilder.FactsReveal(c.facts, d.facts) && d == c.(facts := d.facts)
  }

  predicate Decides(before: Verdict, after: Verdict) {
    before.Undecidable? || before == after
  }

  lemma PathsReveal(c: Context, d: Context, path: string)
    requires ContextReveals(c, d)
    ensures MountFor(c.facts, path).None? <==> MountFor(d.facts, path).None?
    ensures MountFor(c.facts, path).Some? ==>
              ScopeBuilder.MountReveals(MountFor(c.facts, path).value, MountFor(d.facts, path).value)
  {
    ScopeBuilder.DeepestReveals(c.facts.mounts, d.facts.mounts, path);
  }

  /** Some planned path's filesystem turns out to be mounted read only. */
  predicate TurnsReadOnly(c: Context, d: Context) {
    ScopeBuilder.SomeNewlyReadOnly(c.facts, d.facts, c.paths)
  }

  /** The port turns out to be one that an active firewall lets through. */
  predicate NewlyAdmitted(c: Context, d: Context) {
    var before, after := c.facts.firewall, d.facts.firewall;
    before.Some? && after.Some? && before.value.active
    && !Admits(before.value, c.request.port) && Admits(after.value, c.request.port)
  }

  lemma UnusableReveals(c: Context, d: Context, planned: PlannedPath)
    requires ContextReveals(c, d)
    ensures Unusable(d.facts, planned) <==>
            Unusable(c.facts, planned) || ScopeBuilder.NewlyReadOnly(c.facts, d.facts, planned.path)
  {
    PathsReveal(c, d, planned.path);
  }

  /** Collecting the options of a mount leaves the verdict on writing where it was exactly
      when it was a refusal already or no planned path turns out to be read only; one that
      does is refused, whatever the verdict was. */
  lemma PathsWritableExactly(c: Context, d: Context)
    requires ContextReveals(c, d)
    ensures PathsWritable(d) == PathsWritable(c) <==> PathsWritable(c).Unmet? || !TurnsReadOnly(c, d)
    ensures TurnsReadOnly(c, d) ==> PathsWritable(d).Unmet?
  {
    forall p | p in c.paths
      ensures Unusable(d.facts, p) <==> Unusable(c.facts, p) || ScopeBuilder.NewlyReadOnly(c.facts, d.facts, p.path)
    {
      UnusableReveals(c, d, p);
    }
  }

  /** Of a host that reported its firewall, the verdict on it stays exactly when the port is
      not newly one it lets through; where it is, a warning becomes a pass. */
  lemma FirewallStateExactly(c: Context, d: Context)
    requires ContextReveals(c, d) && c.facts.firewall.Some?
    ensures FirewallState(d) == FirewallState(c) <==> !NewlyAdmitted(c, d)
    ensures NewlyAdmitted(c, d) ==> FirewallState(c).Unmet? && FirewallState(d).Satisfied?
  {
    var before, after := c.facts.firewall.value, d.facts.firewall.value;
    assert after == before.(openPorts := after.openPorts);
  }

  lemma FreeSpaceReveals(c: Context, d: Context)
    requires ContextReveals(c, d)
    ensures FreeSpace(c) == FreeSpace(d)
  {
    forall p | p in c.paths
      ensures FreeSpaceChecked(c.facts, p) == FreeSpaceChecked(d.facts, p) && Short(c.facts, p) == Short(d.facts, p)
    {
      PathsReveal(c, d, p.path);
    }
  }

  lemma SeparateMountsReveals(c: Context, d: Context)
    requires ContextReveals(c, d)
    ensures SeparateMounts(c) == SeparateMounts(d)
  {
    forall p, o | p in c.paths && o in p.preferSeparateFrom
      ensures Considered(c, p, o) == Considered(d, p, o) && Sharing(c, p, o) == Sharing(d, p, o)
    {
      PathsReveal(c, d, p.path);
      if PathNamed(c.paths, o).Some? {
        PathsReveal(c, d, PathNamed(c.paths, o).value.path);
      }
    }
  }

  lemma FilesystemReveals(c: Context, d: Context)
    requires ContextReveals(c, d)
    ensures Filesystem(c) == Filesystem(d)
  {
    forall p | p in c.paths ensures Unusual(c, p) == Unusual(d, p) {
      PathsReveal(c, d, p.path);
    }
  }

  lemma OptionalRulesReveal(c: Context, d: Context)
    requires ContextReveals(c, d)
    ensures Decides(RepoReachable(c), RepoReachable(d))
    ensures Decides(Hugepages(c), Hugepages(d)) && Decides(Swappiness(c), Swappiness(d))
    ensures Decides(TimeSynchronized(c), TimeSynchronized(d))
  {
  }

  lemma PlainRulesReveal(c: Context, d: Context)
    requires ContextReveals(c, d)
    ensures Reachable(c) == Reachable(d) && Privilege(c) == Privilege(d) && OsSupported(c) == OsSupported(d)
    ensures ArchSupported(c) == ArchSupported(d) && MinCores(c) == MinCores(d) && MinMemory(c) == MinMemory(d)
    ensures PortFree(c) == PortFree(d) && NotInstalled(c) == NotInstalled(d) && LocalePresent(c) == LocalePresent(d)
    ensures Eol(c) == Eol(d) && NotDefault(c) == NotDefault(d)
  {
  }

  /** More facts turn the answer to the question around. */
  predicate Overturned(question: Question, c: Context, d: Context) {
    || (question.AskPathsWritable? && PathsWritable(c).Satisfied? && TurnsReadOnly(c, d))
    || (question.AskFirewallState? && NewlyAdmitted(c, d))
  }

  /** A shared rule that reached a verdict reaches the same one when more is collected, but
      for two: those whose facts read as an empty list where nobody collected them, and only
      where what is collected is the one entry that matters. */
  lemma SharedRulesAreMonotone(question: Question, c: Context, d: Context)
    requires ContextReveals(c, d)
    ensures Decides(Answer(question, c), Answer(question, d)) <==> !Overturned(question, c, d)
    ensures question.AskFirewallState? && NewlyAdmitted(c, d) ==>
              Answer(question, c).Unmet? && Answer(question, d).Satisfied?
  {
    match question
    case AskPathsWritable => PathsWritableExactly(c, d);
    case AskFirewallState => if c.facts.firewall.Some? { FirewallStateExactly(c, d); }
    case AskFreeSpace => FreeSpaceReveals(c, d);
    case AskSeparateMounts => SeparateMountsReveals(c, d);
    case AskFilesystem => FilesystemReveals(c, d);
    case _ => OptionalRulesReveal(c, d); PlainRulesReveal(c, d);
  }
}
