// Plans addressed by content, and one overwritable pointer per instance. The store is a
// directory of text files; a plan is found again by the name it was kept under.
module Store {
  import opened Wrappers
  import opened Values
  import opened Plans
  import Text

  datatype StoreError = BadPlanId | BadName | NoSuchPlan | NobodySaid | NoPlanId

  type Files = map<string, string>

  // ------------------------------------------------------------------------- the names

  predicate IdChar(c: char) {
    'a' <= c <= 'z' || '0' <= c <= '9' || c == '-'
  }

  predicate NameStart(c: char) {
    'A' <= c <= 'Z' || 'a' <= c <= 'z' || '0' <= c <= '9'
  }

  predicate NameChar(c: char) {
    NameStart(c) || c == '.' || c == '_' || c == '-'
  }

  /** `$` matches at the end and also before one newline that ends the text. */
  function BeforeDollar(s: string): string {
    if s != [] && s[|s| - 1] == '\n' then s[..|s| - 1] else s
  }

  predicate IsPlanId(s: string) {
    var id := BeforeDollar(s);
    4 <= |id| <= 80 && forall c | c in id :: IdChar(c)
  }

  predicate IsName(s: string) {
    var name := BeforeDollar(s);
    1 <= |name| <= 128 && NameStart(name[0]) && forall c | c in name :: NameChar(c)
  }

  function PlanPath(root: string, id: string): Result<string, StoreError> {
    if IsPlanId(id) then Ok(PathOfPlan(root, id)) else Err(BadPlanId)
  }

  function PathOfPlan(root: string, id: string): string {
    root + ("/plans/" + (id + ".json"))
  }

  function InstancePath(root: string, host: string, instance: string): Result<string, StoreError> {
    if IsName(host) && IsName(instance) then Ok(PathOfInstance(root, host, instance)) else Err(BadName)
  }

  function PathOfInstance(root: string, host: string, instance: string): string {
    root + ("/instances/" + (host + ("/" + instance)))
  }

  // --------------------------------------------------------------- what each step does

  /** The id a document carries, where it carries one as text. */
  function IdOf(document: Document): Option<string> {
    if PLAN_ID in document && document[PLAN_ID].Text? then Some(document[PLAN_ID].s) else None
  }

  /** Keeping a plan: nothing where its file is already there, its bytes where it is not. */
  function Kept(root: string, files: Files, id: string, rendered: string): Files {
    match PlanPath(root, id)
    case Err(_) => files
    case Ok(path) => if path in files then files else files[path := rendered]
  }

  function Found(root: string, files: Files, id: string): Result<string, StoreError> {
    var path :- PlanPath(root, id);
    if path in files then Ok(files[path]) else Err(NoSuchPlan)
  }

  function StripStart(s: string): string {
    if s != [] && Text.IsSpace(s[0]) then StripStart(s[1..]) else s
  }

  function StripEnd(s: string): string {
    if s != [] && Text.IsSpace(s[|s| - 1]) then StripEnd(s[..|s| - 1]) else s
  }

  function Strip(s: string): string {
    StripEnd(StripStart(s))
  }

  /** The playbook's half: the pointer is one line, written over whatever was there. */
  function Pointed(root: string, files: Files, host: string, instance: string, id: string): Files {
    match InstancePath(root, host, instance)
    case Err(_) => files
    case Ok(path) => files[path := id + "\n"]
  }

  function Applied(root: string, files: Files, host: string, instance: string): Result<string, StoreError> {
    var path :- InstancePath(root, host, instance);
    if path in files then Ok(Strip(files[path])) else Err(NobodySaid)
  }

  /** One store directory. */
  class PlanStore {
    const root: string
    var files: Files

    constructor (root: string)
      ensures this.root == root && files == map[]
    {
      this.root := root;
      files := map[];
    }

    method Keep(document: Document, rendered: string) returns (r: Result<string, StoreError>)
      modifies this
      ensures files == if IdOf(document).Some? then Kept(root, old(files), IdOf(document).value, rendered) else old(files)
      ensures r == if IdOf(document).None? then Err(NoPlanId) else PlanPath(root, IdOf(document).value)
      ensures r.Ok? ==> r.value in files && (r.value in old(files) ==> files == old(files))
    {
      var id := IdOf(document);
      if id.None? {
        return Err(NoPlanId);
      }
      r := PlanPath(root, id.value);
      if r.Ok? && r.value !in files {
        files := files[r.value := rendered];
      }
    }

    method Read(id: string) returns (r: Result<string, StoreError>)
      ensures r == Found(root, files, id)
    {
      var path := PlanPath(root, id);
      if path.IsFailure() {
        return path;
      }
      if path.value !in files {
        return Err(NoSuchPlan);
      }
      return Ok(files[path.value]);
    }

    method WritePointer(host: string, instance: string, id: string) returns (r: Result<string, StoreError>)
      modifies this
      ensures files == Pointed(root, old(files), host, instance, id)
      ensures r == InstancePath(root, host, instance)
    {
      r := InstancePath(root, host, instance);
      if r.Ok? {
        files := files[r.value := id + "\n"];
      }
    }

    method WhichIsApplied(host: string, instance: string) returns (r: Result<string, StoreError>)
      ensures r == Applied(root, files, host, instance)
    {
      var path := InstancePath(root, host, instance);
      if path.IsFailure() {
        return path;
      }
      if path.value !in files {
        return Err(NobodySaid);
      }
      return Ok(Strip(files[path.value]));
    }
  }
}

module StoreLaws {
  import opened Wrappers
  import opened Values
  import opened Plans
  import opened Store

  // ------------------------------------------------------------ no name reaches another

  lemma SameAfter(prefix: string, a: string, b: string)
    requires prefix + a == prefix + b
    ensures a == b
  {
    assert (prefix + a)[|prefix|..] == a && (prefix + b)[|prefix|..] == b;
  }

  lemma SameBefore(a: string, b: string, suffix: string)
    requires a + suffix == b + suffix
    ensures a == b
  {
    assert |a + suffix| == |b + suffix|;
    assert (a + suffix)[..|a|] == a && (b + suffix)[..|b|] == b;
  }

  lemma PlanPathsAreDistinct(root: string, a: string, b: string)
    requires PathOfPlan(root, a) == PathOfPlan(root, b)
    ensures a == b
  {
    SameAfter(root, "/plans/" + (a + ".json"), "/plans/" + (b + ".json"));
    SameAfter("/plans/", a + ".json", b + ".json");
    SameBefore(a, b, ".json");
  }

  predicate NoSlash(s: string) {
    forall c | c in s :: c != '/'
  }

  lemma NamesHaveNoSlash(s: string)
    requires IsName(s) || IsPlanId(s)
    ensures NoSlash(s)
  {
    var t := BeforeDollar(s);
    forall c | c in s ensures c != '/' {
      if c !in t {
        assert s == t + ['\n'];
      }
    }
  }

  function BeforeSlash(s: string): nat {
    if s == [] || s[0] == '/' then 0 else 1 + BeforeSlash(s[1..])
  }

  lemma {:induction false} FirstSlash(a: string, x: string)
    requires NoSlash(a)
    ensures BeforeSlash(a + ("/" + x)) == |a|
  {
    if a == [] {
      assert a + ("/" + x) == "/" + x;
    } else {
      assert a[0] in a && forall c | c in a[1..] :: c in a;
      assert (a + ("/" + x))[1..] == a[1..] + ("/" + x);
      FirstSlash(a[1..], x);
    }
  }

  lemma SplitAtSlash(a: string, b: string, x: string, y: string)
    requires NoSlash(a) && NoSlash(b) && a + ("/" + x) == b + ("/" + y)
    ensures a == b && x == y
  {
    FirstSlash(a, x);
    FirstSlash(b, y);
    var s := a + ("/" + x);
    assert s[..|a|] == a && s[..|b|] == b;
    assert s[|a| + 1..] == x && s[|b| + 1..] == y;
  }

  lemma InstancePathsAreDistinct(root: string, host: string, instance: string, host': string, instance': string)
    requires IsName(host) && IsName(host')
    requires PathOfInstance(root, host, instance) == PathOfInstance(root, host', instance')
    ensures host == host' && instance == instance'
  {
    SameAfter(root, "/instances/" + (host + ("/" + instance)), "/instances/" + (host' + ("/" + instance')));
    SameAfter("/instances/", host + ("/" + instance), host' + ("/" + instance'));
    NamesHaveNoSlash(host);
    NamesHaveNoSlash(host');
    SplitAtSlash(host, host', instance, instance');
  }

  lemma PlansAreNotPointers(root: string, id: string, host: string, instance: string)
    ensures PathOfPlan(root, id) != PathOfInstance(root, host, instance)
  {
    var p, i := PathOfPlan(root, id), PathOfInstance(root, host, instance);
    assert p[|root|..] == "/plans/" + (id + ".json");
    assert i[|root|..] == "/instances/" + (host + ("/" + instance));
    assert p[|root|..][1] == 'p' && i[|root|..][1] == 'i';
  }

  /** The text without the newline that may end it. */
  ghost predicate Trimmed(s: string, t: string) {
    s == t + "\n" || (s == t && (s == [] || s[|s| - 1] != '\n'))
  }

  lemma TrimmedExactly(s: string)
    ensures forall t :: BeforeDollar(s) == t <==> Trimmed(s, t)
  {
    forall t | Trimmed(s, t) ensures BeforeDollar(s) == t {
    }
    if s != [] && s[|s| - 1] == '\n' {
      assert s == s[..|s| - 1] + "\n";
    }
  }

  /** An id is four to eighty small letters, digits and dashes; a name is a letter or a digit
      and at most 127 more of these, dots, underscores and dashes. Either may end in a newline. */
  lemma NamesExactly(s: string)
    ensures IsPlanId(s) <==>
            exists t :: Trimmed(s, t) && 4 <= |t| <= 80 && forall c | c in t :: 'a' <= c <= 'z' || '0' <= c <= '9' || c == '-'
    ensures IsName(s) <==>
            exists t :: Trimmed(s, t) && 1 <= |t| <= 128 && Alphanumeric(t[0])
                        && forall c | c in t :: Alphanumeric(c) || c == '.' || c == '_' || c == '-'
  {
    TrimmedExactly(s);
    assert Trimmed(s, BeforeDollar(s));
  }

  predicate Alphanumeric(c: char) {
    'A' <= c <= 'Z' || 'a' <= c <= 'z' || '0' <= c <= '9'
  }

  // ------------------------------------------------------------------------- whole runs

  /** What can happen to a store: a plan is kept, or a pointer is written. Reading changes
      nothing. */
  datatype Step = Keep(document: Document, rendered: string) | Point(host: string, instance: string, id: string)

  function After(root: string, files: Files, step: Step): Files {
    match step
    case Keep(document, rendered) =>
      if IdOf(document).None? then files else Kept(root, files, IdOf(document).value, rendered)
    case Point(host, instance, id) => Pointed(root, files, host, instance, id)
  }

  function Run(root: string, files: Files, steps: seq<Step>): Files
    decreases |steps|
  {
    if steps == [] then files else Run(root, After(root, files, steps[0]), steps[1..])
  }

  /** How a document is written and read back, and what names it. */
  datatype Serializer = Serializer(render: Document -> string, parse: string -> Option<Document>, digest: Digest)

  /** The plans a run keeps. */
  function Documents(steps: seq<Step>): set<Document> {
    set s | s in steps && s.Keep? :: s.document
  }

  /** Every plan a run keeps was built: it is what it calls itself, and its bytes are the
      ones the plan step wrote, which read back as that plan. */
  ghost predicate KeepsBuiltPlans(z: Serializer, steps: seq<Step>) {
    forall s | s in steps && s.Keep? ::
      IsWhatItCallsItself(z.digest, s.document) && s.rendered == z.render(s.document)
      && z.parse(s.rendered) == Some(s.document)
  }

  /** The digest tells the plans of a run apart. */
  ghost predicate CollisionFree(digest: Digest, plans: set<Document>) {
    forall a, b | a in plans && b in plans :: NoCollision(digest, a, b)
  }

  /** What is under an id, whatever its shape. */
  ghost predicate Holds(root: string, files: Files, id: string, bytes: string) {
    Found(root, files, id) == Ok(bytes)
  }

  lemma OneStepKeepsBytes(root: string, files: Files, step: Step, id: string, bytes: string)
    requires Holds(root, files, id, bytes)
    ensures Holds(root, After(root, files, step), id, bytes)
  {
    if step.Point? && InstancePath(root, step.host, step.instance).Ok? {
      PlansAreNotPointers(root, id, step.host, step.instance);
    }
  }

  /** Bytes under an id never change once they are there. */
  lemma {:induction false} BytesNeverChange(root: string, files: Files, steps: seq<Step>, id: string, bytes: string)
    requires Holds(root, files, id, bytes)
    ensures Holds(root, Run(root, files, steps), id, bytes)
    decreases |steps|
  {
    if steps != [] {
      OneStepKeepsBytes(root, files, steps[0], id, bytes);
      BytesNeverChange(root, After(root, files, steps[0]), steps[1..], id, bytes);
    }
  }

  /** What a store of built plans keeps true: whatever is under an id reads as one of the
      plans that were kept, and that plan is what it calls itself, under that very name. */
  ghost predicate Sound(z: Serializer, plans: set<Document>, root: string, files: Files) {
    forall id, bytes {:trigger Holds(root, files, id, bytes)} ::
      Holds(root, files, id, bytes) ==> ReadsAs(z, plans, id, bytes)
  }

  ghost predicate ReadsAs(z: Serializer, plans: set<Document>, id: string, bytes: string) {
    && z.parse(bytes).Some? && z.parse(bytes).value in plans
    && IsWhatItCallsItself(z.digest, z.parse(bytes).value)
    && IdOf(z.parse(bytes).value) == Some(id)
  }

  lemma OneStepKeepsSound(z: Serializer, plans: set<Document>, root: string, files: Files, step: Step)
    requires Sound(z, plans, root, files) && KeepsBuiltPlans(z, [step]) && Documents([step]) <= plans
    ensures Sound(z, plans, root, After(root, files, step))
  {
    var after := After(root, files, step);
    forall id, bytes | Holds(root, after, id, bytes) ensures ReadsAs(z, plans, id, bytes) {
      if Holds(root, files, id, bytes) {
      } else if step.Keep? {
        assert step in [step] && step.document in Documents([step]);
        PlanPathsAreDistinct'(root, IdOf(step.document).value, id);
      } else {
        PlansAreNotPointers(root, id, step.host, step.instance);
      }
    }
  }

  lemma PlanPathsAreDistinct'(root: string, a: string, b: string)
    ensures PathOfPlan(root, a) == PathOfPlan(root, b) ==> a == b
  {
    if PathOfPlan(root, a) == PathOfPlan(root, b) {
      PlanPathsAreDistinct(root, a, b);
    }
  }

  /** Every plan the store ever holds passes the reader's check, under the id it is kept
      under, in every run that keeps built plans. */
  lemma {:induction false} HeldPlansAreSound(z: Serializer, plans: set<Document>, root: string, files: Files, steps: seq<Step>)
    requires Sound(z, plans, root, files) && KeepsBuiltPlans(z, steps) && Documents(steps) <= plans
    ensures Sound(z, plans, root, Run(root, files, steps))
    decreases |steps|
  {
    if steps != [] {
      assert steps[0] in steps;
      assert steps[0].Keep? ==> steps[0].document in Documents(steps);
      OneStepKeepsSound(z, plans, root, files, steps[0]);
      HeldPlansAreSound(z, plans, root, After(root, files, steps[0]), steps[1..]);
    }
  }

  lemma KeptIsHeld(root: string, files: Files, document: Document, rendered: string)
    requires IdOf(document).Some? && IsPlanId(IdOf(document).value)
    ensures Found(root, After(root, files, Keep(document, rendered)), IdOf(document).value).Ok?
  {
  }

  /** A plan kept in the middle of a run can be read at the end of it, and what is read
      agrees with it on everything but the moment it was written, even where another plan
      of that name was there first. */
  lemma KeptPlansAreFoundAgain(z: Serializer, root: string, before: seq<Step>, document: Document, after: seq<Step>)
    requires var steps := before + [Keep(document, z.render(document))] + after;
             KeepsBuiltPlans(z, steps) && CollisionFree(z.digest, Documents(steps))
    requires IdOf(document).Some? && IsPlanId(IdOf(document).value)
    ensures var steps := before + [Keep(document, z.render(document))] + after;
            var read := Found(root, Run(root, map[], steps), IdOf(document).value);
            read.Ok? && z.parse(read.value).Some?
            && z.parse(read.value).value - {GENERATED_AT} == document - {GENERATED_AT}
  {
    var step := Keep(document, z.render(document));
    var steps := before + [step] + after;
    var files := Run(root, map[], before);
    RunSplits(root, map[], before, [step] + after);
    assert steps == before + ([step] + after);
    assert ([step] + after)[1..] == after;
    KeptIsHeld(root, files, document, step.rendered);
    var bytes := Found(root, After(root, files, step), IdOf(document).value).value;
    BytesNeverChange(root, After(root, files, step), after, IdOf(document).value, bytes);
    HeldPlansAreSound(z, Documents(steps), root, map[], steps);
    assert step in steps && document in Documents(steps);
    SameNameExactlySameContent(z.digest, z.parse(bytes).value, document);
  }

  lemma {:induction false} RunSplits(root: string, files: Files, a: seq<Step>, b: seq<Step>)
    ensures Run(root, files, a + b) == Run(root, Run(root, files, a), b)
    decreases |a|
  {
    if a == [] {
      assert a + b == b;
    } else {
      assert (a + b)[1..] == a[1..] + b;
      RunSplits(root, After(root, files, a[0]), a[1..], b);
    }
  }

  // --------------------------------------------------------------------------- pointers

  /** The step writes the pointer of this host and instance. */
  predicate Writes(step: Step, host: string, instance: string) {
    step.Point? && step.host == host && step.instance == instance
  }

  lemma OtherStepsLeavePointers(root: string, files: Files, step: Step, host: string, instance: string)
    requires IsName(host) && IsName(instance) && !Writes(step, host, instance)
    ensures var path := PathOfInstance(root, host, instance);
            (path in After(root, files, step) <==> path in files)
            && (path in files ==> After(root, files, step)[path] == files[path])
  {
    if step.Keep? {
      if IdOf(step.document).Some? {
        PlansAreNotPointers(root, IdOf(step.document).value, host, instance);
      }
    } else if InstancePath(root, step.host, step.instance).Ok?
              && PathOfInstance(root, host, instance) == PathOfInstance(root, step.host, step.instance) {
      InstancePathsAreDistinct(root, host, instance, step.host, step.instance);
    }
  }

  /** The last id a run writes for one host and instance, if it writes any. */
  function LastWritten(steps: seq<Step>, host: string, instance: string): Option<string> {
    if steps == [] then None
    else if Writes(steps[|steps| - 1], host, instance) then Some(steps[|steps| - 1].id)
    else LastWritten(steps[..|steps| - 1], host, instance)
  }

  /** After any run, an instance is said to run the last plan written for it, whatever was
      kept and whatever was written for any other host or instance in between; and nobody
      said exactly when nothing was ever written for it. */
  lemma {:induction false} PointerIsLastWritten(root: string, steps: seq<Step>, host: string, instance: string)
    requires IsName(host) && IsName(instance)
    ensures Applied(root, Run(root, map[], steps), host, instance) ==
            match LastWritten(steps, host, instance)
            case None => Err(NobodySaid)
            case Some(id) => Ok(Strip(id + "\n"))
    decreases |steps|
  {
    if steps != [] {
      var n := |steps| - 1;
      var front, last := steps[..n], steps[n];
      assert steps == front + [last];
      RunSplits(root, map[], front, [last]);
      var files := Run(root, map[], front);
      assert Run(root, files, [last]) == After(root, files, last);
      PointerIsLastWritten(root, front, host, instance);
      if !Writes(last, host, instance) {
        OtherStepsLeavePointers(root, files, last, host, instance);
      }
    }
  }

  /** An id that was accepted is read back without the newline it may have ended in, so
      exactly as it was written when it ended in none. */
  lemma PointerReadsBackExactly(id: string)
    requires IsPlanId(id)
    ensures Strip(id + "\n") == BeforeDollar(id)
    ensures Strip(id + "\n") == id <==> id[|id| - 1] != '\n'
  {
    var line, plain := id + "\n", BeforeDollar(id);
    assert line[0] == plain[0] && IdChar(plain[0]);
    assert StripStart(line) == line;
    assert line[..|line| - 1] == id;
    assert IdChar(plain[|plain| - 1]) && StripEnd(plain) == plain;
    assert StripEnd(line) == StripEnd(id);
    if id != plain {
      assert id[..|id| - 1] == plain;
    }
  }

  /** An id may end in a newline, and is then another plan's file than the id without it. */
  lemma TrailingNewlineIsAnotherPlan(root: string)
    ensures IsPlanId("abcd\n") && PathOfPlan(root, "abcd\n") != PathOfPlan(root, "abcd")
  {
    PlanPathsAreDistinct'(root, "abcd\n", "abcd");
    assert BeforeDollar("abcd\n") == "abcd";
  }

  /** Which of the two answers there is to asking for a plan, and to asking what is applied,
      and which of the two refusals. */
  lemma AnswersAreExact(root: string, files: Files, id: string, host: string, instance: string)
    ensures Found(root, files, id) == Err(BadPlanId) <==> !IsPlanId(id)
    ensures Found(root, files, id) == Err(NoSuchPlan) <==> IsPlanId(id) && root + ("/plans/" + (id + ".json")) !in files
    ensures Applied(root, files, host, instance) == Err(BadName) <==> !IsName(host) || !IsName(instance)
    ensures Applied(root, files, host, instance) == Err(NobodySaid) <==>
            IsName(host) && IsName(instance) && root + ("/instances/" + (host + ("/" + instance))) !in files
  {
  }
}
