// When a host falls short of a rule and when a rule has nothing to say, in terms of what the
// host, the profile and the request hold; and when, because of it, a host is refused.
module GateMeaning {
  import opened Wrappers
  import opened Values
  import opened Expressions
  import opened Facts
  import opened Profiles
  import opened PreflightModel
  import opened SharedRules
  import opened Preflight
  import Text

  // ------------------------------------------------------------------------ shared rules

  /** The last planned path for the purpose, which is the one a name stands for. */
  ghost predicate StandsFor(paths: seq<PlannedPath>, purpose: string, planned: PlannedPath) {
    exists i | 0 <= i < |paths| ::
      paths[i] == planned && planned.purpose == purpose && forall j | i < j < |paths| :: paths[j].purpose != purpose
  }

  lemma {:induction false} PathNamedExactly(paths: seq<PlannedPath>, purpose: string)
    ensures PathNamed(paths, purpose).Some? <==> exists p | p in paths :: p.purpose == purpose
    ensures forall p :: PathNamed(paths, purpose) == Some(p) <==> StandsFor(paths, purpose, p)
  {
    if paths != [] {
      var n := |paths| - 1;
      PathNamedExactly(paths[..n], purpose);
      assert paths == paths[..n] + [paths[n]];
      forall p ensures PathNamed(paths, purpose) == Some(p) <==> StandsFor(paths, purpose, p) {
        if paths[n].purpose != purpose {
          assert forall i | 0 <= i < n :: paths[..n][i] == paths[i];
        }
      }
    }
  }

  /** A path with a minimum lives on a filesystem with less than that free. */
  ghost predicate TooLittleFree(c: Context, p: PlannedPath, m: Mount) {
    p in c.paths && p.minFree.Some? && LivesOn(c.facts.mounts, p.path, m) && m.freeBytes < p.minFree.value
  }

  /** Two planned paths, the first of which is to be apart from the other, live on filesystems
      reported at one place. */
  ghost predicate Together(c: Context, p: PlannedPath, q: PlannedPath, m: Mount, n: Mount) {
    && p in c.paths && q.purpose in p.preferSeparateFrom && StandsFor(c.paths, q.purpose, q)
    && LivesOn(c.facts.mounts, p.path, m) && LivesOn(c.facts.mounts, q.path, n) && m.path == n.path
  }

  ghost predicate OnAnother(c: Context, p: PlannedPath, m: Mount) {
    p in c.paths && LivesOn(c.facts.mounts, p.path, m) && m.filesystem !in c.profile.preferredFilesystems
  }

  ghost predicate CannotBeWritten(c: Context, p: PlannedPath) {
    p in c.paths && forall m :: LivesOn(c.facts.mounts, p.path, m) ==> "ro" in m.options
  }

  ghost predicate InConflict(s: InstalledService, k: Conflict) {
    s.name == k.service || (k.prefix && k.service <= s.name)
  }

  /** The host falls short of what the rule asks. */
  ghost predicate Falls(question: Question, c: Context) {
    match question
    case AskReachable => c.facts.host != c.request.host
    case AskPrivilege => !c.facts.privileges.canEscalate
    case AskOsSupported => forall e | e in c.version.supportedOs && e.distro == c.facts.os.distro :: c.facts.os.version !in e.versions
    case AskArchSupported => c.facts.arch !in c.version.arch
    case AskMinCores => c.profile.minimumCores.Some? && c.facts.cpu.cores < c.profile.minimumCores.value
    case AskMinMemory => c.profile.minimumMemory.Some? && c.facts.memory.totalBytes < c.profile.minimumMemory.value
    case AskPathsWritable => exists p :: CannotBeWritten(c, p)
    case AskFreeSpace => exists p, m :: TooLittleFree(c, p, m)
    case AskPortFree => exists l | l in c.facts.listeningPorts :: l.port == c.request.port && l.protocol == "tcp"
    case AskNotInstalled => exists s, k | s in c.facts.services && k in c.profile.conflicts :: InConflict(s, k)
    case AskRepoReachable =>
      RepositoryOf(c).Some? && c.facts.reachableRepositories.Some?
      && RepositoryOf(c).value.url !in c.facts.reachableRepositories.value
    case AskLocalePresent =>
      c.profile.defaultLocale.Some?
      && forall l | l in c.facts.locales :: CanonicalLocale(l) != CanonicalLocale(c.profile.defaultLocale.value)
    case AskSeparateMounts => exists p, q, m, n :: Together(c, p, q, m, n)
    case AskFilesystem => c.profile.preferredFilesystems != [] && exists p, m :: OnAnother(c, p, m)
    case AskHugepages =>
      c.profile.preferredHugepages != [] && HugepagesOf(c).Some? && HugepagesOf(c).value !in c.profile.preferredHugepages
    case AskSwappiness =>
      c.profile.maxSwappiness.Some? && SwappinessOf(c).Some? && SwappinessOf(c).value > c.profile.maxSwappiness.value
    case AskTimeSynchronized => c.facts.timeSync.Some? && !c.facts.timeSync.value.synchronized
    case AskEol => c.version.eol - c.today <= 365
    case AskNotDefault => c.request.version != c.profile.defaultVersion
    case AskFirewallState =>
      c.facts.firewall.Some? && c.facts.firewall.value.active && c.request.port !in c.facts.firewall.value.openPorts
  }

  function RepositoryOf(c: Context): Option<Repository> {
    if c.facts.os.family in c.profile.packages then c.profile.packages[c.facts.os.family].repository else None
  }

  function HugepagesOf(c: Context): Option<string> {
    if c.facts.kernel.None? then None else c.facts.kernel.value.transparentHugepages
  }

  function SwappinessOf(c: Context): Option<int> {
    if c.facts.kernel.None? then None else c.facts.kernel.value.swappiness
  }

  /** The profile asks for nothing, or the host did not report what it is about. */
  ghost predicate Silent(question: Question, c: Context) {
    match question
    case AskMinCores => c.profile.minimumCores.None?
    case AskMinMemory => c.profile.minimumMemory.None?
    case AskFreeSpace => forall p, m | p in c.paths && m in c.facts.mounts && p.minFree.Some? :: !Carries(m, p.path)
    case AskNotInstalled => c.profile.conflicts == []
    case AskRepoReachable => RepositoryOf(c).None? || c.facts.reachableRepositories.None?
    case AskLocalePresent => c.profile.defaultLocale.None?
    case AskSeparateMounts => forall p, q | p in c.paths && q in c.paths :: q.purpose !in p.preferSeparateFrom
    case AskFilesystem => c.profile.preferredFilesystems == []
    case AskHugepages => c.profile.preferredHugepages == [] || HugepagesOf(c).None?
    case AskSwappiness => c.profile.maxSwappiness.None? || SwappinessOf(c).None?
    case AskTimeSynchronized => c.facts.timeSync.None?
    case AskFirewallState => c.facts.firewall.None?
    case _ => false
  }

  lemma WhereItLives(c: Context, path: string)
    ensures MountFor(c.facts, path).None? <==> forall m | m in c.facts.mounts :: !Carries(m, path)
    ensures forall m :: MountFor(c.facts, path) == Some(m) <==> LivesOn(c.facts.mounts, path, m)
  {
    DeepestExactly(c.facts.mounts, path);
  }

  lemma WritableExactly(c: Context)
    ensures PathsWritable(c).Unmet? <==> Falls(AskPathsWritable, c)
  {
    forall p | p in c.paths ensures Unusable(c.facts, p) <==> CannotBeWritten(c, p) {
      WhereItLives(c, p.path);
      var mount := MountFor(c.facts, p.path);
      assert mount.Some? ==> LivesOn(c.facts.mounts, p.path, mount.value);
    }
  }

  lemma ShortExactly(c: Context, p: PlannedPath)
    requires p in c.paths
    ensures Short(c.facts, p) <==> exists m :: TooLittleFree(c, p, m)
    ensures FreeSpaceChecked(c.facts, p) <==> p.minFree.Some? && exists m | m in c.facts.mounts :: Carries(m, p.path)
  {
    WhereItLives(c, p.path);
    var mount := MountFor(c.facts, p.path);
    if Short(c.facts, p) {
      assert TooLittleFree(c, p, mount.value);
    }
  }

  lemma FreeSpaceExactly(c: Context)
    ensures FreeSpace(c).Unmet? <==> Falls(AskFreeSpace, c)
    ensures FreeSpace(c).Undecidable? <==> Silent(AskFreeSpace, c)
  {
    forall p | p in c.paths
      ensures Short(c.facts, p) <==> exists m :: TooLittleFree(c, p, m)
      ensures FreeSpaceChecked(c.facts, p) <==> p.minFree.Some? && exists m | m in c.facts.mounts :: Carries(m, p.path)
    {
      ShortExactly(c, p);
    }
    forall p, m | TooLittleFree(c, p, m) ensures Short(c.facts, p) {
    }
  }

  lemma SharingExactly(c: Context, p: PlannedPath, other: string)
    requires p in c.paths && other in p.preferSeparateFrom
    ensures SharedRules.Sharing(c, p, other) <==> exists q: PlannedPath, m, n :: q.purpose == other && Together(c, p, q, m, n)
    ensures Considered(c, p, other) <==> exists q | q in c.paths :: q.purpose == other
  {
    PathNamedExactly(c.paths, other);
    WhereItLives(c, p.path);
    if PathNamed(c.paths, other).Some? {
      var q := PathNamed(c.paths, other).value;
      WhereItLives(c, q.path);
      if SharedRules.Sharing(c, p, other) {
        assert Together(c, p, q, MountFor(c.facts, p.path).value, MountFor(c.facts, q.path).value);
      }
    }
  }

  lemma SeparateMountsExactly(c: Context)
    ensures SeparateMounts(c).Undecidable? <==> Silent(AskSeparateMounts, c)
    ensures SeparateMounts(c).Unmet? <==> Falls(AskSeparateMounts, c)
  {
    forall p, o | p in c.paths && o in p.preferSeparateFrom
      ensures SharedRules.Sharing(c, p, o) <==> exists q: PlannedPath, m, n :: q.purpose == o && Together(c, p, q, m, n)
      ensures Considered(c, p, o) <==> exists q | q in c.paths :: q.purpose == o
    {
      SharingExactly(c, p, o);
    }
    forall p, q, m, n | Together(c, p, q, m, n) ensures SharedRules.Sharing(c, p, q.purpose) {
      assert q in c.paths;
    }
  }

  lemma FilesystemExactly(c: Context)
    ensures Filesystem(c).Unmet? <==> Falls(AskFilesystem, c)
  {
    forall p | p in c.paths ensures Unusual(c, p) <==> exists m :: OnAnother(c, p, m) {
      WhereItLives(c, p.path);
      if Unusual(c, p) {
        assert OnAnother(c, p, MountFor(c.facts, p.path).value);
      }
    }
    forall p, m | OnAnother(c, p, m) ensures Unusual(c, p) {
    }
  }

  lemma NotInstalledExactly(c: Context)
    ensures NotInstalled(c).Unmet? <==> Falls(AskNotInstalled, c)
  {
    forall s | s in c.facts.services
      ensures Conflicting(c.profile, s.name) <==> exists k | k in c.profile.conflicts :: InConflict(s, k)
    {
      if Conflicting(c.profile, s.name) {
        var k :| k in c.profile.conflicts && Matches(k, s.name);
        assert InConflict(s, k);
      }
      forall k | k in c.profile.conflicts && InConflict(s, k) ensures Matches(k, s.name) {
      }
    }
  }

  lemma {:induction false} PortInUseExactly(listening: seq<ListeningPort>, port: int, protocol: string)
    ensures PortInUse(listening, port, protocol).Some? <==> exists l | l in listening :: l.port == port && l.protocol == protocol
  {
    if listening != [] {
      PortInUseExactly(listening[1..], port, protocol);
      assert listening == [listening[0]] + listening[1..];
    }
  }

  lemma PlainQuestionsExactly(question: Question, c: Context)
    requires question !in {AskPathsWritable, AskFreeSpace, AskSeparateMounts, AskFilesystem, AskNotInstalled, AskPortFree}
    ensures Answer(question, c).Unmet? <==> Falls(question, c)
    ensures Answer(question, c).Undecidable? <==> Silent(question, c)
  {
  }

  /** Each of the twenty rules refuses exactly where the host falls short of it, and says
      nothing exactly where there is nothing to compare. */
  lemma VerdictsAreExact(question: Question, c: Context)
    ensures Answer(question, c).Unmet? <==> Falls(question, c)
    ensures Answer(question, c).Undecidable? <==> Silent(question, c)
  {
    match question
    case AskPathsWritable => WritableExactly(c);
    case AskFreeSpace => FreeSpaceExactly(c);
    case AskSeparateMounts => SeparateMountsExactly(c);
    case AskFilesystem => FilesystemExactly(c);
    case AskNotInstalled => NotInstalledExactly(c);
    case AskPortFree => PortInUseExactly(c.facts.listeningPorts, c.request.port, "tcp");
    case _ => PlainQuestionsExactly(question, c);
  }

  // ----------------------------------------------------------------------------- locales

  /** A locale keeps its name and its modifier, and of its codeset what `Reduced` keeps. */
  lemma LocaleIsSpelled(name: string, codeset: string, modifier: string)
    requires '.' !in name && '@' !in name && '@' !in codeset && (modifier == [] || modifier[0] == '@')
    ensures CanonicalLocale(name + ("." + codeset) + modifier) == name + ("." + Reduced(codeset)) + modifier
    ensures CanonicalLocale(name + modifier) == name + modifier
  {
    var tail := "." + codeset;
    assert tail[1..] == codeset;
    SplitAt(name + tail, modifier, '@');
    SplitAt(name, tail, '.');
    LocaleOfParts(name + tail + modifier, name + tail, modifier, name, tail);
    SplitAt(name, modifier, '@');
    SplitAt(name, [], '.');
    assert name + [] == name;
    LocaleOfParts(name + modifier, name, modifier, name, []);
  }

  lemma LocaleOfParts(locale: string, head: string, modifier: string, name: string, tail: string)
    requires Before(locale, '@') == head && From(locale, '@') == modifier
    requires Before(head, '.') == name && From(head, '.') == tail
    ensures CanonicalLocale(locale) == name + (if tail == [] then [] else "." + Reduced(tail[1..])) + modifier
  {
  }

  lemma {:induction false} SplitAt(a: string, b: string, c: char)
    requires c !in a && (b == [] || b[0] == c)
    ensures Before(a + b, c) == a && From(a + b, c) == b
  {
    if a == [] {
      assert a + b == b;
    } else {
      assert (a + b)[1..] == a[1..] + b;
      SplitAt(a[1..], b, c);
    }
  }

  /** Of a codeset the letters and digits are kept in their order, capitals as the small
      letters they stand for, and nothing else. */
  lemma {:induction false} ReducedExactly(a: string, c: char, b: string)
    ensures Reduced(a + b) == Reduced(a) + Reduced(b)
    ensures Reduced([c]) ==
            if c in "abcdefghijklmnopqrstuvwxyz0123456789" then [c]
            else if 'A' <= c <= 'Z' then ['a' + (c - 'A')]
            else []
  {
    assert Reduced([]) == [] && [c][1..] == [];
    CharacterKept(c);
    if a == [] {
      assert a + b == b;
    } else {
      assert (a + b)[1..] == a[1..] + b;
      ReducedExactly(a[1..], c, b);
    }
  }

  lemma CharacterKept(c: char)
    ensures c in "abcdefghijklmnopqrstuvwxyz0123456789" <==> 'a' <= c <= 'z' || '0' <= c <= '9'
  {
    var all := "abcdefghijklmnopqrstuvwxyz0123456789";
    assert forall i | 0 <= i < 26 :: all[i] as int == 'a' as int + i;
    assert forall i | 26 <= i < 36 :: all[i] as int == '0' as int + i - 26;
    if 'a' <= c <= 'z' {
      assert all[c as int - 'a' as int] == c;
    } else if '0' <= c <= '9' {
      assert all[26 + c as int - '0' as int] == c;
    }
  }

  // --------------------------------------------------------------------- rules of a profile

  /** The expression can be read and comes to this answer. */
  ghost predicate Says(e: Node, s: Scope, yes: bool) {
    Check(e).Accepted? && TruthOf(e, s) == Val(yes)
  }

  ghost predicate Wants(e: Node, s: Scope) {
    Check(e).Accepted? && TruthOf(e, s).Missing?
  }

  ghost predicate Applies(rule: GateRule, s: Scope) {
    rule.appliesTo.None? || Says(rule.appliesTo.value, s, true)
  }

  /** The rule applies and its condition comes to no. */
  ghost predicate GateFalls(rule: GateRule, s: Scope) {
    Applies(rule, s) && Says(rule.expr, s, false)
  }

  /** The rule does not apply, or a fact it asks for is missing. */
  ghost predicate GateSilent(rule: GateRule, s: Scope) {
    || (rule.appliesTo.Some? && (Says(rule.appliesTo.value, s, false) || Wants(rule.appliesTo.value, s)))
    || (Applies(rule, s) && Wants(rule.expr, s))
  }

  /** What is wrong with the expression is what reading it or evaluating it came to. */
  ghost predicate Explains(reason: Preflight.Reason, e: Node, s: Scope) {
    match reason
    case Unreadable(culprit) => Check(e) == Refused(culprit)
    case Failed(fault) => Check(e).Accepted? && TruthOf(e, s) == Wrong(fault)
  }

  /** A rule of a profile is unmet, or silent, exactly so; and where it stops the run the
      error is about that rule and about the expression that is wrong. */
  lemma GatesAreExact(rule: GateRule, s: Scope)
    ensures EvaluateRule(rule, s) == Ok(Unmet) <==> GateFalls(rule, s)
    ensures EvaluateRule(rule, s) == Ok(Undecidable) <==> GateSilent(rule, s)
    ensures EvaluateRule(rule, s) == Ok(Satisfied) <==> Applies(rule, s) && Says(rule.expr, s, true)
    ensures EvaluateRule(rule, s).Err? && EvaluateRule(rule, s).error.RuleError? ==>
              var e := EvaluateRule(rule, s).error;
              e.rule == rule
              && match e.field
                 case AppliesTo => rule.appliesTo.Some? && Explains(e.reason, rule.appliesTo.value, s)
                 case Condition => Applies(rule, s) && Explains(e.reason, rule.expr, s)
  {
  }

  /** Every rule of the profile has its result, in its place, unless one of them stops the run. */
  lemma {:induction false} ContributedAt(gates: seq<GateRule>, s: Scope)
    ensures ContributedResults(gates, s).Ok? <==> forall g | g in gates :: EvaluateRule(g, s).Ok?
    ensures ContributedResults(gates, s).Ok? ==>
              var results := ContributedResults(gates, s).value;
              |results| == |gates| && forall i | 0 <= i < |gates| :: ContributedAs(gates[i], s, results[i])
    ensures ContributedResults(gates, s).Err? ==>
              exists g | g in gates :: EvaluateRule(g, s) == Err(ContributedResults(gates, s).error)
  {
    if gates != [] {
      ContributedAt(gates[1..], s);
      assert gates == [gates[0]] + gates[1..];
      GatesAreExact(gates[0], s);
    }
  }

  ghost predicate ContributedAs(rule: GateRule, s: Scope, r: GateResult) {
    && r.identifier == rule.identifier && r.source == Contributed && r.severity == rule.severity
    && OutcomeAs(r, rule.severity.Block?, GateFalls(rule, s), GateSilent(rule, s))
  }

  /** A rule that fell short blocks or warns as it says, a silent one is skipped and never
      passes. */
  ghost predicate OutcomeAs(r: GateResult, blocking: bool, falls: bool, silent: bool) {
    && (r.outcome.Blocked? <==> falls && blocking) && (r.outcome.Warned? <==> falls && !blocking)
    && (r.outcome.Skip? <==> silent) && (r.outcome.Pass? <==> !falls && !silent)
  }

  // -------------------------------------------------------------------------- whole runs

  /** The twelve questions that refuse a host; the other eight only warn. */
  predicate Blocking(question: Question) {
    question !in {AskSeparateMounts, AskFilesystem, AskHugepages, AskSwappiness, AskTimeSynchronized, AskEol, AskNotDefault,
                  AskFirewallState}
  }

  function IdentifierOf(question: Question): string {
    match question
    case AskReachable => "host.reachable"
    case AskPrivilege => "host.privilege"
    case AskOsSupported => "os.supported"
    case AskArchSupported => "arch.supported"
    case AskMinCores => "cpu.min_cores"
    case AskMinMemory => "mem.min_total"
    case AskPathsWritable => "disk.paths_writable"
    case AskFreeSpace => "disk.free_space"
    case AskPortFree => "port.free"
    case AskNotInstalled => "engine.not_installed"
    case AskRepoReachable => "repo.reachable"
    case AskLocalePresent => "locale.present"
    case AskSeparateMounts => "disk.separate_mounts"
    case AskFilesystem => "disk.filesystem"
    case AskHugepages => "os.thp"
    case AskSwappiness => "os.swappiness"
    case AskTimeSynchronized => "time.sync"
    case AskEol => "version.eol"
    case AskNotDefault => "version.not_default"
    case AskFirewallState => "firewall.state"
  }

  function RuleFor(question: Question): SharedRule {
    SharedRule(IdentifierOf(question), if Blocking(question) then Block else Warn, question)
  }

  /** The questions in the order they are asked. */
  const IN_ORDER: seq<Question> := [
    AskReachable, AskPrivilege, AskOsSupported, AskArchSupported, AskMinCores, AskMinMemory, AskPathsWritable, AskFreeSpace,
    AskPortFree, AskNotInstalled, AskRepoReachable, AskLocalePresent, AskSeparateMounts, AskFilesystem, AskHugepages,
    AskSwappiness, AskTimeSynchronized, AskEol, AskNotDefault, AskFirewallState]

  function PlaceOf(question: Question): (i: nat)
    ensures i < |IN_ORDER| && IN_ORDER[i] == question
  {
    match question
    case AskReachable => 0
    case AskPrivilege => 1
    case AskOsSupported => 2
    case AskArchSupported => 3
    case AskMinCores => 4
    case AskMinMemory => 5
    case AskPathsWritable => 6
    case AskFreeSpace => 7
    case AskPortFree => 8
    case AskNotInstalled => 9
    case AskRepoReachable => 10
    case AskLocalePresent => 11
    case AskSeparateMounts => 12
    case AskFilesystem => 13
    case AskHugepages => 14
    case AskSwappiness => 15
    case AskTimeSynchronized => 16
    case AskEol => 17
    case AskNotDefault => 18
    case AskFirewallState => 19
  }

  lemma EveryQuestionIsAsked(question: Question)
    ensures |AllShared()| == |IN_ORDER| && AllShared()[PlaceOf(question)] == RuleFor(question)
  {
    if Blocking(question) {
      RefusingQuestionIsAsked(question);
    } else {
      WarningQuestionIsAsked(question);
    }
  }

  lemma RefusingQuestionIsAsked(question: Question)
    requires Blocking(question)
    ensures |AllShared()| == |IN_ORDER| && AllShared()[PlaceOf(question)] == SharedRule(IdentifierOf(question), Block, question)
  {
    if PlaceOf(question) < 6 {
      assert AllShared()[PlaceOf(question)].question == question;
    } else {
      assert AllShared()[PlaceOf(question)].question == question;
    }
  }

  lemma WarningQuestionIsAsked(question: Question)
    requires !Blocking(question)
    ensures |AllShared()| == |IN_ORDER| && AllShared()[PlaceOf(question)] == SharedRule(IdentifierOf(question), Warn, question)
  {
  }

  lemma AskedInOrder(i: nat)
    requires i < |IN_ORDER|
    ensures PlaceOf(IN_ORDER[i]) == i
  {
  }

  lemma OneRuleForEach(i: nat)
    requires i < |AllShared()|
    ensures i < |IN_ORDER| && AllShared()[i] == RuleFor(IN_ORDER[i])
  {
    EveryQuestionIsAsked(AskReachable);
    AskedInOrder(i);
    EveryQuestionIsAsked(IN_ORDER[i]);
  }

  lemma SharedAs(c: Context, i: nat)
    requires i < |AllShared()|
    ensures var r, question := SharedResults(AllShared(), c)[i], AllShared()[i].question;
            && r.identifier == IdentifierOf(question) && r.source == Shared
            && OutcomeAs(r, Blocking(question), Falls(question, c), Silent(question, c))
  {
    OneRuleForEach(i);
    SharedAt(AllShared(), c, i);
    VerdictsAreExact(AllShared()[i].question, c);
  }

  lemma SharedBlockExactly(c: Context)
    ensures IsBlocked(SharedResults(AllShared(), c)) <==> exists question :: Blocking(question) && Falls(question, c)
  {
    var results := SharedResults(AllShared(), c);
    if IsBlocked(results) {
      var r :| r in results && r.outcome.Blocked?;
      var i :| 0 <= i < |results| && results[i] == r;
      SharedAs(c, i);
      assert Blocking(AllShared()[i].question) && Falls(AllShared()[i].question, c);
    }
    if question :| Blocking(question) && Falls(question, c) {
      EveryQuestionIsAsked(question);
      SharedAs(c, PlaceOf(question));
      assert results[PlaceOf(question)] in results;
    }
  }

  ghost predicate SomeGateRefuses(gates: seq<GateRule>, s: Scope) {
    exists gate | gate in gates :: gate.severity.Block? && GateFalls(gate, s)
  }

  lemma ContributedBlockExactly(gates: seq<GateRule>, s: Scope)
    requires ContributedResults(gates, s).Ok?
    ensures IsBlocked(ContributedResults(gates, s).value) <==> SomeGateRefuses(gates, s)
  {
    ContributedAt(gates, s);
    var results := ContributedResults(gates, s).value;
    forall i | 0 <= i < |gates| ensures results[i].outcome.Blocked? <==> gates[i].severity.Block? && GateFalls(gates[i], s) {
      assert ContributedAs(gates[i], s, results[i]);
    }
    if IsBlocked(results) {
      var r :| r in results && r.outcome.Blocked?;
      var i :| 0 <= i < |results| && results[i] == r;
      assert gates[i] in gates;
    }
    if gate :| gate in gates && gate.severity.Block? && GateFalls(gate, s) {
      var i :| 0 <= i < |gates| && gates[i] == gate;
      assert results[i] in results;
    }
  }

  lemma BlockedByEither(x: seq<GateResult>, y: seq<GateResult>)
    ensures IsBlocked(x + y) <==> IsBlocked(x) || IsBlocked(y)
  {
    forall r ensures r in x + y <==> r in x || r in y {
    }
  }

  /** A host is refused exactly when it falls short of one of the twelve shared rules that
      refuse, or of a rule of its profile that does. */
  lemma RefusedExactly(c: Context)
    requires Run(c).Ok?
    ensures IsBlocked(Run(c).value) <==>
            (exists question :: Blocking(question) && Falls(question, c)) || SomeGateRefuses(c.profile.gates, ScopeOf(c))
  {
    var shared, own := SharedResults(AllShared(), c), ContributedResults(c.profile.gates, ScopeOf(c)).value;
    SharedBlockExactly(c);
    ContributedBlockExactly(c.profile.gates, ScopeOf(c));
    BlockedByEither(shared, own);
    ReportCounts(shared + own);
  }

  // -------------------------------------------------------------------------- the report

  /** Of two results the first may be reported before the second: what refuses the host comes
      before what warns, that before what was skipped, that before what passed, and alike they
      come by identifier. */
  ghost predicate InReportOrder(a: GateResult, b: GateResult) {
    match (a.outcome, b.outcome)
    case (Blocked, Blocked) => ByIdentifier(a, b)
    case (Warned, Warned) => ByIdentifier(a, b)
    case (Skip, Skip) => ByIdentifier(a, b)
    case (Pass, Pass) => ByIdentifier(a, b)
    case (Blocked, _) => true
    case (_, Blocked) => false
    case (Warned, _) => true
    case (_, Warned) => false
    case (Skip, _) => true
    case _ => false
  }

  ghost predicate ByIdentifier(a: GateResult, b: GateResult) {
    a.identifier == b.identifier || Text.Precedes(a.identifier, b.identifier)
  }

  lemma ReportIsInOrder(results: seq<GateResult>)
    ensures AllInOrder(Of(results))
  {
    ReportIsSortedPermutation(results);
    forall i, j | 0 <= i < j < |Of(results)| ensures InReportOrder(Of(results)[i], Of(results)[j]) {
      OrderIsReportOrder(Of(results)[i], Of(results)[j]);
    }
  }

  lemma OrderIsReportOrder(a: GateResult, b: GateResult)
    ensures PreflightModel.AtMost(a, b) <==> InReportOrder(a, b)
  {
    Text.BeforeExactly(a.identifier, b.identifier);
  }

  /** A run reports every shared rule and every rule of the profile, once each, in report order. */
  lemma RunReportsEveryRule(c: Context)
    ensures Run(c).Ok? <==> forall gate | gate in c.profile.gates :: EvaluateRule(gate, ScopeOf(c)).Ok?
    ensures Run(c).Ok? ==>
              multiset(Run(c).value) ==
              multiset(SharedResults(AllShared(), c)) + multiset(ContributedResults(c.profile.gates, ScopeOf(c)).value)
    ensures Run(c).Ok? ==> AllInOrder(Run(c).value)
  {
    ContributedAt(c.profile.gates, ScopeOf(c));
    if Run(c).Ok? {
      var results := Results(c).value;
      ReportIsSortedPermutation(results);
      ReportIsInOrder(results);
      assert multiset(results) ==
             multiset(SharedResults(AllShared(), c)) + multiset(ContributedResults(c.profile.gates, ScopeOf(c)).value);
    }
  }

  ghost predicate AllInOrder(report: seq<GateResult>) {
    forall i, j | 0 <= i < j < |report| :: InReportOrder(report[i], report[j])
  }
}
