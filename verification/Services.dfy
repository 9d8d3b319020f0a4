// What is installed, where two init systems may describe one service differently.
module Services {
  import Text

  datatype State = Installed | Stopped | Running

  /** How definite each state is. */
  function Confidence(state: State): nat {
    match state
    case Installed => 0
    case Stopped => 1
    case Running => 2
  }

  /** One unit as it was collected: its name and what it was said to be doing. */
  datatype Unit = Unit(name: string, said: string)

  const SUFFIX := ".service"

  /** A unit's name without the suffix that says which init system answered. */
  function ServiceName(unit: string): string {
    if |unit| >= |SUFFIX| && unit[|unit| - |SUFFIX|..] == SUFFIX then unit[..|unit| - |SUFFIX|] else unit
  }

  function Lower(s: string): string {
    if s == [] then []
    else [if 'A' <= s[0] <= 'Z' then (s[0] as int + 32) as char else s[0]] + Lower(s[1..])
  }

  /** Anything that is neither running nor stopped is merely present. */
  function StateOf(said: string): State {
    var text := Lower(said);
    if text == "running" then Running else if text == "stopped" then Stopped else Installed
  }

  /** What each unit says: which service, in which state. */
  function Reports(units: seq<Unit>): seq<(string, State)> {
    seq(|units|, i requires 0 <= i < |units| => (ServiceName(units[i].name), StateOf(units[i].said)))
  }

  type States = map<string, State>

  function Merged(states: States, report: (string, State)): States {
    if report.0 !in states || Confidence(report.1) > Confidence(states[report.0]) then states[report.0 := report.1]
    else states
  }

  function MergedAll(reports: seq<(string, State)>): States {
    if reports == [] then map[] else Merged(MergedAll(reports[..|reports| - 1]), reports[|reports| - 1])
  }

  datatype Service = Service(name: string, state: State)

  function NamesInOrder(names: set<string>): (r: seq<string>)
    ensures forall n :: n in r <==> n in names
    decreases |names|
  {
    if names == {} then []
    else
      var first := Text.Least(names);
      [first] + NamesInOrder(names - {first})
  }

  /** One entry for each service, by name. */
  function Listed(states: States): seq<Service> {
    var names := NamesInOrder(states.Keys);
    seq(|names|, i requires 0 <= i < |names| => assert names[i] in names; Service(names[i], states[names[i]]))
  }

  function Collected(units: seq<Unit>): seq<Service> {
    Listed(MergedAll(Reports(units)))
  }

  /** The loop over what was collected. */
  method MergeLoop(units: seq<Unit>) returns (services: seq<Service>)
    ensures services == Collected(units)
  {
    var states: States := map[];
    ghost var reports := Reports(units);
    for i := 0 to |units|
      invariant states == MergedAll(reports[..i])
    {
      var name, state := ServiceName(units[i].name), StateOf(units[i].said);
      assert reports[..i + 1][..i] == reports[..i] && reports[i] == (name, state);
      if name !in states || Confidence(state) > Confidence(states[name]) {
        states := states[name := state];
      }
    }
    assert reports[..|units|] == reports;
    services := Listed(states);
  }

  // ------------------------------------------------------------------------------ laws

  /** The most definite state anybody reported for a name: reported by somebody, and no
      more definite one by anybody. */
  ghost predicate MostDefinite(reports: seq<(string, State)>, name: string, state: State) {
    (name, state) in reports
    && forall r | r in reports && r.0 == name :: Confidence(r.1) <= Confidence(state)
  }

  /** The fold computes that maximum for every name anybody mentioned and for no other. */
  lemma {:induction false} MergeIsMaximum(reports: seq<(string, State)>)
    ensures MergedAll(reports).Keys == set r | r in reports :: r.0
    ensures forall name | name in MergedAll(reports) :: MostDefinite(reports, name, MergedAll(reports)[name])
  {
    if reports != [] {
      var n := |reports| - 1;
      var front, last := reports[..n], reports[n];
      assert reports == front + [last];
      MergeIsMaximum(front);
      forall name | name in MergedAll(reports) ensures MostDefinite(reports, name, MergedAll(reports)[name]) {
        if name in MergedAll(front) {
          assert MostDefinite(front, name, MergedAll(front)[name]);
        }
      }
    }
  }

  lemma MostDefiniteIsUnique(reports: seq<(string, State)>, name: string, a: State, b: State)
    requires MostDefinite(reports, name, a) && MostDefinite(reports, name, b)
    ensures a == b
  {
    assert (name, a) in reports && (name, b) in reports;
  }

  lemma {:induction false} SameReports(a: seq<Unit>, b: seq<Unit>)
    requires multiset(a) == multiset(b)
    ensures forall r :: r in Reports(a) ==> r in Reports(b)
  {
    forall r | r in Reports(a) ensures r in Reports(b) {
      var i :| 0 <= i < |a| && Reports(a)[i] == r;
      assert a[i] in multiset(b);
      var j :| 0 <= j < |b| && b[j] == a[i];
      assert Reports(b)[j] == r;
    }
  }

  /** The list does not depend on the order of what was collected. */
  lemma MergeDoesNotDependOnOrder(a: seq<Unit>, b: seq<Unit>)
    requires multiset(a) == multiset(b)
    ensures Collected(a) == Collected(b)
  {
    SameReports(a, b);
    SameReports(b, a);
    SameStates(Reports(a), Reports(b));
  }

  lemma SameStates(a: seq<(string, State)>, b: seq<(string, State)>)
    requires forall r :: r in a <==> r in b
    ensures MergedAll(a) == MergedAll(b)
  {
    MergeIsMaximum(a);
    MergeIsMaximum(b);
    var x, y := MergedAll(a), MergedAll(b);
    assert x.Keys == y.Keys;
    forall name | name in x ensures x[name] == y[name] {
      assert MostDefinite(a, name, x[name]) && MostDefinite(b, name, y[name]);
      assert MostDefinite(a, name, y[name]);
      MostDefiniteIsUnique(a, name, x[name], y[name]);
    }
  }

  lemma {:induction false} NamesAreInOrder(names: set<string>)
    ensures forall i, j | 0 <= i < j < |NamesInOrder(names)| :: Text.Before(NamesInOrder(names)[i], NamesInOrder(names)[j])
    decreases |names|
  {
    if names != {} {
      var first := Text.Least(names);
      NamesAreInOrder(names - {first});
      var rest := NamesInOrder(names - {first});
      forall j | 0 <= j < |rest| ensures Text.Before(first, rest[j]) {
        assert rest[j] in names - {first};
        assert Text.AtMost(first, rest[j]);
      }
    }
  }

  lemma ListedIsComplete(states: States)
    ensures forall i, j | 0 <= i < j < |Listed(states)| :: Text.Before(Listed(states)[i].name, Listed(states)[j].name)
    ensures forall s :: s in Listed(states) <==> s.name in states && states[s.name] == s.state
  {
    NamesAreInOrder(states.Keys);
    var names, list := NamesInOrder(states.Keys), Listed(states);
    assert forall i | 0 <= i < |list| :: list[i].name == names[i];
    assert forall i | 0 <= i < |list| :: names[i] in names;
    forall s: Service | s.name in states && states[s.name] == s.state ensures s in list {
      assert s.name in names;
      var i :| 0 <= i < |names| && names[i] == s.name;
      assert list[i] == s;
    }
  }

  /** Every service that was mentioned is listed once, in strictly increasing order of
      name, with the most definite state anybody reported, and nothing else is. */
  lemma ListIsComplete(units: seq<Unit>)
    ensures var list, reports := Collected(units), Reports(units);
            && (forall i, j | 0 <= i < j < |list| :: Text.Before(list[i].name, list[j].name))
            && (forall s :: s in list <==> MostDefinite(reports, s.name, s.state))
            && (forall r | r in reports :: exists s :: s in list && s.name == r.0)
  {
    var reports := Reports(units);
    var states := MergedAll(reports);
    MergeIsMaximum(reports);
    ListedIsComplete(states);
    forall s ensures s in Collected(units) <==> MostDefinite(reports, s.name, s.state) {
      if MostDefinite(reports, s.name, s.state) {
        assert (s.name, s.state) in reports;
        MostDefiniteIsUnique(reports, s.name, s.state, states[s.name]);
      }
    }
    forall r | r in reports ensures exists s :: s in Collected(units) && s.name == r.0 {
      assert Service(r.0, states[r.0]) in Collected(units);
    }
  }

  /** The text is the word, in capitals or in small letters or in any mixture of the two. */
  ghost predicate InAnyCase(said: string, word: string) {
    |said| == |word| && forall i | 0 <= i < |word| :: said[i] == word[i] || said[i] as int + 32 == word[i] as int
  }

  lemma {:induction false} LowerIsAnyCase(said: string, word: string)
    requires forall c | c in word :: 'a' <= c <= 'z'
    ensures Lower(said) == word <==> InAnyCase(said, word)
  {
    if said != [] && word != [] {
      assert forall c | c in word[1..] :: c in word;
      LowerIsAnyCase(said[1..], word[1..]);
      assert word == [word[0]] + word[1..] && said == [said[0]] + said[1..];
      assert word[0] in word;
      assert Lower(said) == word <==> Lower(said)[0] == word[0] && Lower(said[1..]) == word[1..];
      assert InAnyCase(said, word) <==> InAnyCase([said[0]], [word[0]]) && InAnyCase(said[1..], word[1..]) by {
        SplitAnyCase(said, word);
      }
    }
  }

  lemma SplitAnyCase(said: string, word: string)
    requires said != [] && word != []
    ensures InAnyCase(said, word) <==> InAnyCase([said[0]], [word[0]]) && InAnyCase(said[1..], word[1..])
  {
    if InAnyCase([said[0]], [word[0]]) && InAnyCase(said[1..], word[1..]) {
      assert [said[0]][0] == said[0];
      forall i | 0 <= i < |word| ensures said[i] == word[i] || said[i] as int + 32 == word[i] as int {
        assert i > 0 ==> said[1..][i - 1] == said[i] && word[1..][i - 1] == word[i];
      }
    }
  }

  /** A unit that was said to be running, or stopped, is; of any other only that it is there
      is known. Its service is its name without the suffix, where it has that. */
  lemma UnitsAreRead(unit: Unit)
    ensures StateOf(unit.said) == Running <==> InAnyCase(unit.said, "running")
    ensures StateOf(unit.said) == Stopped <==> InAnyCase(unit.said, "stopped")
    ensures unit.name == ServiceName(unit.name) + ".service"
            || (unit.name == ServiceName(unit.name) && forall name :: unit.name != name + ".service")
  {
    LowerIsAnyCase(unit.said, "running");
    LowerIsAnyCase(unit.said, "stopped");
    assert "running" != "stopped" by { assert "running"[0] != "stopped"[0]; }
    forall name: string | unit.name == name + ".service" ensures ServiceName(unit.name) == name {
      assert unit.name[|unit.name| - |SUFFIX|..] == SUFFIX && unit.name[..|unit.name| - |SUFFIX|] == name;
    }
  }

  ghost predicate Reported(units: seq<Unit>, name: string, state: State) {
    exists u | u in units :: ServiceName(u.name) == name && StateOf(u.said) == state
  }

  lemma ReportedIsAReport(units: seq<Unit>, name: string, state: State)
    ensures Reported(units, name, state) <==> (name, state) in Reports(units)
  {
    var reports := Reports(units);
    if u :| u in units && ServiceName(u.name) == name && StateOf(u.said) == state {
      var i :| 0 <= i < |units| && units[i] == u;
      assert reports[i] == (name, state);
    }
    if (name, state) in reports {
      var i :| 0 <= i < |reports| && reports[i] == (name, state);
      assert units[i] in units;
    }
  }

  lemma MostDefiniteExactly(reports: seq<(string, State)>, name: string)
    ensures MostDefinite(reports, name, Running) <==> (name, Running) in reports
    ensures MostDefinite(reports, name, Stopped) <==> (name, Stopped) in reports && (name, Running) !in reports
    ensures MostDefinite(reports, name, Installed) <==>
            (name, Installed) in reports && (name, Stopped) !in reports && (name, Running) !in reports
  {
    forall r | r in reports && r.0 == name ensures r == (name, Running) || r == (name, Stopped) || r == (name, Installed) {
      match r.1
      case Running =>
      case Stopped =>
      case Installed =>
    }
  }

  /** A service is listed as running when anybody reported it so, else as stopped when anybody
      did, and else as installed when it was reported at all. */
  lemma RunningBeatsStopped(units: seq<Unit>, name: string)
    ensures Service(name, Running) in Collected(units) <==> Reported(units, name, Running)
    ensures Service(name, Stopped) in Collected(units) <==>
            Reported(units, name, Stopped) && !Reported(units, name, Running)
    ensures Service(name, Installed) in Collected(units) <==>
            Reported(units, name, Installed) && !Reported(units, name, Stopped) && !Reported(units, name, Running)
  {
    ListIsComplete(units);
    MostDefiniteExactly(Reports(units), name);
    forall state ensures Reported(units, name, state) <==> (name, state) in Reports(units) {
      ReportedIsAReport(units, name, state);
    }
    forall state: State ensures Service(name, state) in Collected(units) <==> MostDefinite(Reports(units), name, state) {
      assert Service(name, state).name == name;
    }
  }
}
