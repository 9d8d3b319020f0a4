// The agreements between the files of a profile that make the planner's work well defined.
module Loader {
  import opened Wrappers
  import opened SizingRules
  import opened SizingOrder
  import Values
  import Counting
  import Facts
  import Profiles
  import ScopeBuilder
  import Sizing
  import SizingLaws
  import Units

  /** One place a name is used: which file, which position in it, which name. */
  datatype Use = Use(file: string, index: nat, name: string)

  /** A name that was already used, and where it was used first. */
  datatype Problem = Problem(at: Use, first: Use)

  function NamesOf(uses: seq<Use>): seq<string> {
    seq(|uses|, i requires 0 <= i < |uses| => uses[i].name)
  }

  function FirstUse(uses: seq<Use>, name: string): Option<Use> {
    if uses == [] then None
    else if uses[0].name == name then Some(uses[0])
    else FirstUse(uses[1..], name)
  }

  /** A problem for every use of a name that was used before it. */
  function Duplicates(uses: seq<Use>): seq<Problem> {
    if uses == [] then []
    else
      var n := |uses| - 1;
      Duplicates(uses[..n]) +
      match FirstUse(uses[..n], uses[n].name)
      case None => []
      case Some(first) => [Problem(uses[n], first)]
  }

  /** A file of the profile, and the identifiers of its entries in their order. */
  datatype File = File(name: string, identifiers: seq<string>)

  function UsesIn(file: string, names: seq<string>): seq<Use> {
    seq(|names|, i requires 0 <= i < |names| => Use(file, i, names[i]))
  }

  function AllUses(files: seq<File>): seq<Use> {
    if files == [] then []
    else
      var n := |files| - 1;
      AllUses(files[..n]) + UsesIn(files[n].name, files[n].identifiers)
  }

  /** The four files identifiers come from, in the order they are read. */
  function Files(sources: Sources): seq<File> {
    [File("requirements.yml", sources.gates), File("sizing.yml", sources.sizing),
     File("apply.yml", sources.configuration), File("verify.yml", sources.checks)]
  }

  datatype Sources = Sources(gates: seq<string>, sizing: seq<string>, configuration: seq<string>, checks: seq<string>)

  function ParameterUses(rules: seq<Rule>): seq<Use> {
    UsesIn("sizing.yml", SizingLaws.ParametersOf(rules))
  }

  /** The groups a scope is built out of. */
  const RESERVED_GROUPS: set<string> := {"host", "request", "profile", "path"}

  function Reserved(): set<string> {
    ScopeBuilder.BaseScope().Keys + RESERVED_GROUPS
  }

  function Shadowing(uses: seq<Use>): seq<Use> {
    if uses == [] then []
    else (if uses[0].name in Reserved() then [uses[0]] else []) + Shadowing(uses[1..])
  }

  /** The three checks of a profile that the planner relies on find nothing. */
  predicate Accepted(sources: Sources, rules: seq<Rule>) {
    Duplicates(AllUses(Files(sources))) == [] && Duplicates(ParameterUses(rules)) == [] && Shadowing(ParameterUses(rules)) == []
  }

  // ------------------------------------------------------------- the loops, as written

  /** The inner loop over one file, adding to what has been seen. */
  method FileLoop(before: seq<Use>, seen: map<string, Use>, file: string, names: seq<string>)
    returns (seen': map<string, Use>, problems: seq<Problem>)
    requires Remembers(seen, before)
    ensures Remembers(seen', before + UsesIn(file, names))
    ensures Duplicates(before + UsesIn(file, names)) == Duplicates(before) + problems
  {
    seen', problems := seen, [];
    var uses := UsesIn(file, names);
    assert before + uses[..0] == before && Duplicates(before) + [] == Duplicates(before);
    for i := 0 to |names|
      invariant Remembers(seen', before + uses[..i])
      invariant Duplicates(before + uses[..i]) == Duplicates(before) + problems
    {
      var use := Use(file, i, names[i]);
      OneUse(before + uses[..i], seen', use);
      assert before + uses[..i + 1] == before + uses[..i] + [use];
      if use.name in seen' {
        problems := problems + [Problem(use, seen'[use.name])];
      } else {
        seen' := seen'[use.name := use];
      }
    }
    assert uses[..|names|] == uses;
  }

  function Noted(seen: map<string, Use>, use: Use): map<string, Use> {
    if use.name in seen then seen else seen[use.name := use]
  }

  function NewProblem(seen: map<string, Use>, use: Use): seq<Problem> {
    if use.name in seen then [Problem(use, seen[use.name])] else []
  }

  lemma OneUse(uses: seq<Use>, seen: map<string, Use>, use: Use)
    requires Remembers(seen, uses)
    ensures Remembers(Noted(seen, use), uses + [use])
    ensures Duplicates(uses + [use]) == Duplicates(uses) + NewProblem(seen, use)
  {
    AppendUse(uses, use);
  }

  /** The outer loop over the files, one after another, remembering across them. */
  method IdentifiersLoop(files: seq<File>) returns (problems: seq<Problem>)
    ensures problems == Duplicates(AllUses(files))
  {
    var seen: map<string, Use> := map[];
    problems := [];
    for i := 0 to |files|
      invariant Remembers(seen, AllUses(files[..i]))
      invariant problems == Duplicates(AllUses(files[..i]))
    {
      var found;
      seen, found := FileLoop(AllUses(files[..i]), seen, files[i].name, files[i].identifiers);
      problems := problems + found;
      assert files[..i + 1][..i] == files[..i];
    }
    assert files[..|files|] == files;
  }

  /** What is remembered of the uses so far: for each name, where it was used first. */
  ghost predicate Remembers(seen: map<string, Use>, uses: seq<Use>) {
    forall name :: (name in seen <==> FirstUse(uses, name).Some?) && (name in seen ==> FirstUse(uses, name) == Some(seen[name]))
  }

  lemma {:induction false} FirstUseAppend(uses: seq<Use>, use: Use, name: string)
    ensures FirstUse(uses + [use], name) ==
            if FirstUse(uses, name).Some? then FirstUse(uses, name) else if use.name == name then Some(use) else None
  {
    if uses != [] {
      assert (uses + [use])[1..] == uses[1..] + [use];
      FirstUseAppend(uses[1..], use, name);
    }
  }

  lemma AppendUse(uses: seq<Use>, use: Use)
    ensures Duplicates(uses + [use]) == Duplicates(uses) +
            match FirstUse(uses, use.name) { case None => [] case Some(first) => [Problem(use, first)] }
    ensures forall name :: FirstUse(uses + [use], name) ==
              if FirstUse(uses, name).Some? then FirstUse(uses, name) else if use.name == name then Some(use) else None
  {
    assert (uses + [use])[..|uses|] == uses;
    forall name { FirstUseAppend(uses, use, name); }
  }

  // ------------------------------------------------------------------------------ laws

  lemma {:induction false} FirstUseIsFirst(uses: seq<Use>, name: string)
    ensures FirstUse(uses, name).None? <==> name !in NamesOf(uses)
    ensures FirstUse(uses, name).Some? ==>
              exists i :: 0 <= i < |uses| && uses[i] == FirstUse(uses, name).value && uses[i].name == name
                          && forall j | 0 <= j < i :: uses[j].name != name
  {
    if uses != [] {
      FirstUseIsFirst(uses[1..], name);
      assert NamesOf(uses) == [uses[0].name] + NamesOf(uses[1..]);
      if uses[0].name != name && FirstUse(uses, name).Some? {
        var k :| 0 <= k < |uses| - 1 && uses[1..][k] == FirstUse(uses[1..], name).value && uses[1..][k].name == name
                 && forall j | 0 <= j < k :: uses[1..][j].name != name;
        assert uses[k + 1] == uses[1..][k];
        forall j | 0 <= j < k + 1 ensures uses[j].name != name {
          assert j > 0 ==> uses[j] == uses[1..][j - 1];
        }
      }
    }
  }

  /** There are exactly as many problems as uses beyond the first of each name. */
  lemma {:induction false} ProblemsAreTotalMinusDistinct(uses: seq<Use>)
    ensures |Duplicates(uses)| == |uses| - |Counting.Elements(NamesOf(uses))|
    ensures forall p | p in Duplicates(uses) :: p.at in uses && FirstUse(uses, p.at.name) == Some(p.first)
  {
    if uses != [] {
      var n := |uses| - 1;
      var front, last := uses[..n], uses[n];
      assert uses == front + [last];
      ProblemsAreTotalMinusDistinct(front);
      assert NamesOf(uses) == NamesOf(front) + [last.name];
      Counting.ElementsOfAppend(NamesOf(front), last.name);
      FirstUseIsFirst(front, last.name);
      assert last.name in Counting.Elements(NamesOf(front)) <==> last.name in NamesOf(front);
      forall p | p in Duplicates(uses) ensures p.at in uses && FirstUse(uses, p.at.name) == Some(p.first) {
        FirstUseAppend(front, last, p.at.name);
      }
    }
  }

  /** Nothing is reported exactly when no name is used twice, across all four files. */
  lemma NoProblemsExactly(uses: seq<Use>)
    ensures Duplicates(uses) == [] <==> Counting.Distinct(NamesOf(uses))
  {
    ProblemsAreTotalMinusDistinct(uses);
    Counting.DistinctByCounting(NamesOf(uses));
  }

  lemma {:induction false} ShadowingExactly(uses: seq<Use>)
    ensures forall u :: u in Shadowing(uses) <==> u in uses && u.name in Reserved()
  {
    if uses != [] {
      ShadowingExactly(uses[1..]);
      assert uses == [uses[0]] + uses[1..];
    }
  }

  lemma UnshadowedExactly(rules: seq<Rule>)
    ensures Shadowing(ParameterUses(rules)) == [] <==> Declared(rules) !! Reserved()
  {
    var uses := ParameterUses(rules);
    ShadowingExactly(uses);
    if Shadowing(uses) == [] {
      forall p | p in Declared(rules) ensures p !in Reserved() {
        var r :| r in rules && r.parameter == p;
        var i :| 0 <= i < |rules| && rules[i] == r;
        assert uses[i] in uses && uses[i].name == p;
      }
    } else {
      var u := Shadowing(uses)[0];
      assert u in Shadowing(uses);
      var i :| 0 <= i < |uses| && uses[i] == u;
      assert rules[i].parameter == u.name && rules[i] in rules;
    }
  }

  lemma SetOnceExactly(rules: seq<Rule>)
    ensures Duplicates(ParameterUses(rules)) == [] <==> SizingLaws.Distinct(rules)
  {
    assert NamesOf(ParameterUses(rules)) == SizingLaws.ParametersOf(rules);
    NoProblemsExactly(ParameterUses(rules));
    SizingLaws.DistinctParameters(rules);
  }

  /** A profile that is accepted sets every parameter once, and none of them is a name its
      formulas already read: the scope sizing starts from defines none of them. */
  lemma AcceptedProfileSatisfiesThePlanner(sources: Sources, profile: Profiles.Profile, facts: Facts.HostFacts,
                                           request: Profiles.Request, paths: seq<Profiles.PlannedPath>)
    requires Accepted(sources, profile.sizing)
    ensures SizingLaws.Distinct(profile.sizing)
    ensures Declared(profile.sizing) !! ScopeBuilder.BuildScope(facts, profile, request, paths).Keys
  {
    SetOnceExactly(profile.sizing);
    UnshadowedExactly(profile.sizing);
    ScopeBuilder.ScopeNames(facts, profile, request, paths);
  }

  /** On an accepted profile and any host, a plan's parameters are the one assignment that
      solves every rule at once, and they read the facts as they were collected: no
      parameter hides one. */
  lemma AcceptedProfileHasOneSizing(sources: Sources, profile: Profiles.Profile, facts: Facts.HostFacts,
                                    request: Profiles.Request, paths: seq<Profiles.PlannedPath>, values: Values.Scope)
    requires Accepted(sources, profile.sizing) && EvaluationOrder(profile.sizing).Ok?
    requires var scope := ScopeBuilder.BuildScope(facts, profile, request, paths);
             SizingLaws.Solution(Size, profile.sizing, scope, values)
    ensures var scope := ScopeBuilder.BuildScope(facts, profile, request, paths);
            && Sizing.EvaluateRules(profile.sizing, scope).Ok?
            && SizingLaws.SelfConsistent(Size, profile.sizing, scope, Sizing.EvaluateRules(profile.sizing, scope).value, values)
            && forall n | n in scope :: (scope + values)[n] == scope[n]
  {
    AcceptedProfileSatisfiesThePlanner(sources, profile, facts, request, paths);
    SizingLaws.EvaluationIsTheSolution(profile.sizing, ScopeBuilder.BuildScope(facts, profile, request, paths));
  }

  lemma {:induction false} NamesOfAppended(a: seq<Use>, b: seq<Use>)
    ensures NamesOf(a + b) == NamesOf(a) + NamesOf(b)
  {
  }

  lemma NamesOfUsesIn(file: string, names: seq<string>)
    ensures NamesOf(UsesIn(file, names)) == names
  {
  }

  lemma NamesOfFour(a: File, b: File, c: File, d: File)
    ensures NamesOf(AllUses([a, b, c, d])) == a.identifiers + b.identifiers + c.identifiers + d.identifiers
  {
    var x, y, z := [a], [a, b], [a, b, c];
    var all := [a, b, c, d];
    assert all[..3] == z && z[..2] == y && y[..1] == x && x[..0] == [];
    NamesOfUsesIn(a.name, a.identifiers);
    NamesOfUsesIn(b.name, b.identifiers);
    NamesOfUsesIn(c.name, c.identifiers);
    NamesOfUsesIn(d.name, d.identifiers);
    assert AllUses([]) == [];
    NamesOfAppended([], UsesIn(a.name, a.identifiers));
    NamesOfAppended(AllUses(x), UsesIn(b.name, b.identifiers));
    NamesOfAppended(AllUses(y), UsesIn(c.name, c.identifiers));
    NamesOfAppended(AllUses(z), UsesIn(d.name, d.identifiers));
  }

  /** The identifiers of a profile are found to be in order exactly when no two of its gates,
      sizing rules, configuration files and checks share one, within a file or across them. */
  lemma IdentifiersAreUniqueExactly(sources: Sources)
    ensures Duplicates(AllUses(Files(sources))) == [] <==>
            Counting.Distinct(sources.gates + sources.sizing + sources.configuration + sources.checks)
  {
    var files := Files(sources);
    NamesOfFour(files[0], files[1], files[2], files[3]);
    NoProblemsExactly(AllUses(files));
  }

  /** Where a name is used is said by its file and its position in that file. */
  lemma UsesAreWhereTheyAre(sources: Sources, file: string, i: nat, name: string)
    ensures Use(file, i, name) in AllUses(Files(sources)) <==>
            || (file == "requirements.yml" && i < |sources.gates| && sources.gates[i] == name)
            || (file == "sizing.yml" && i < |sources.sizing| && sources.sizing[i] == name)
            || (file == "apply.yml" && i < |sources.configuration| && sources.configuration[i] == name)
            || (file == "verify.yml" && i < |sources.checks| && sources.checks[i] == name)
  {
    UsesAreOfAFile(Files(sources), Use(file, i, name));
    var all := Files(sources);
    if Use(file, i, name) in AllUses(all) {
      var k :| 0 <= k < |all| && IsUseIn(all[k], Use(file, i, name));
    }
    assert forall k | 0 <= k < 4 && IsUseIn(all[k], Use(file, i, name)) :: Use(file, i, name) in AllUses(all);
    assert IsUseIn(all[0], Use(file, i, name)) <==> file == "requirements.yml" && i < |sources.gates| && sources.gates[i] == name;
    assert IsUseIn(all[1], Use(file, i, name)) <==> file == "sizing.yml" && i < |sources.sizing| && sources.sizing[i] == name;
    assert IsUseIn(all[2], Use(file, i, name)) <==>
           file == "apply.yml" && i < |sources.configuration| && sources.configuration[i] == name;
    assert IsUseIn(all[3], Use(file, i, name)) <==> file == "verify.yml" && i < |sources.checks| && sources.checks[i] == name;
  }

  predicate IsUseIn(file: File, use: Use) {
    use.file == file.name && use.index < |file.identifiers| && file.identifiers[use.index] == use.name
  }

  lemma {:induction false} UsesAreOfAFile(files: seq<File>, use: Use)
    ensures use in AllUses(files) <==> exists k :: 0 <= k < |files| && IsUseIn(files[k], use)
  {
    if files != [] {
      var n := |files| - 1;
      UsesAreOfAFile(files[..n], use);
      assert forall k | 0 <= k < n :: files[..n][k] == files[k];
      var last := UsesIn(files[n].name, files[n].identifiers);
      if IsUseIn(files[n], use) {
        assert last[use.index] == use;
      }
      assert use in last <==> IsUseIn(files[n], use);
    }
  }

  /** The names no parameter may have: the units of bytes, none, and the groups of a scope. */
  lemma ReservedExactly()
    ensures Reserved() == Units.BYTE_UNITS.Keys + {"none", "host", "request", "profile", "path"}
  {
  }

  lemma ParametersAreUsedInSizing(rules: seq<Rule>, file: string, i: nat, name: string)
    ensures Use(file, i, name) in ParameterUses(rules) <==> file == "sizing.yml" && i < |rules| && rules[i].parameter == name
  {
    var uses := ParameterUses(rules);
    if file == "sizing.yml" && i < |rules| && rules[i].parameter == name {
      assert uses[i] == Use(file, i, name);
    }
  }

  /** A profile is accepted by these checks exactly when no two of its entries share an
      identifier, no two sizing rules set one parameter, and none sets a reserved name. */
  lemma AcceptedExactly(sources: Sources, rules: seq<Rule>)
    ensures Accepted(sources, rules) <==>
            && Counting.Distinct(sources.gates + sources.sizing + sources.configuration + sources.checks)
            && SizingLaws.Distinct(rules)
            && forall r | r in rules :: r.parameter !in Reserved()
  {
    IdentifiersAreUniqueExactly(sources);
    SetOnceExactly(rules);
    UnshadowedExactly(rules);
  }
}
