// Everything that is decided before a plan is written, and everything that stops one.
module Decisions {
  import opened Wrappers
  import opened Values
  import opened Changes
  import opened Expressions
  import Profiles
  import Facts
  import Sizing
  import SizingRules

  /** Why there is no plan. `Unwritable` is not a refusal the planner means to make: it is
      the writer of the document failing on a group of facts with a hole in it. */
  datatype Refusal =
    | BlockedHost
    | Unsizable(error: SizingRules.PlanError)
    | Unprovisionable(reason: ActionError)
    | Unwritable(tunable: Profiles.Tunable)
    | NamesItself

  datatype Decided = Decided(parameters: seq<SizingRules.Sized>, actions: Actions)

  type Sizes = Result<seq<SizingRules.Sized>, SizingRules.PlanError>

  /** What was seen of a setting can be written down: there is no hole in it. */
  predicate Writable(setting: Setting) {
    setting.observed.Some? ==> Reported(setting.observed.value)
  }

  function FirstUnwritable(settings: seq<Setting>): Option<Profiles.Tunable> {
    if settings == [] then None
    else if !Writable(settings[0]) then Some(settings[0].tunable)
    else FirstUnwritable(settings[1..])
  }

  /** The gates first, then the sizes, then what is to be done, and at last the writing. */
  function Combined(blocked: bool, sizes: Sizes, actions: Result<Actions, ActionError>): Result<Decided, Refusal> {
    if blocked then Err(BlockedHost)
    else
      match sizes
      case Err(error) => Err(Unsizable(error))
      case Ok(parameters) =>
        match actions
        case Err(error) => Err(Unprovisionable(error))
        case Ok(todo) =>
          match FirstUnwritable(todo.settings)
          case Some(tunable) => Err(Unwritable(tunable))
          case None => Ok(Decided(parameters, todo))
  }

  function Decide(blocked: bool, facts: Facts.HostFacts, profile: Profiles.Profile, request: Profiles.Request,
                  scope: Scope): Result<Decided, Refusal>
  {
    Combined(blocked, Sizing.EvaluateRules(profile.sizing, scope), PlanActions(facts, profile, request, scope))
  }

  // ------------------------------------------------------------------------------ laws

  lemma {:induction false} FirstUnwritableIsExact(settings: seq<Setting>)
    ensures FirstUnwritable(settings).None? <==> forall x | x in settings :: Writable(x)
    ensures FirstUnwritable(settings).Some? ==>
              exists x | x in settings :: !Writable(x) && x.tunable == FirstUnwritable(settings).value
  {
    if settings != [] {
      FirstUnwritableIsExact(settings[1..]);
      assert settings == [settings[0]] + settings[1..];
    }
  }

  /** What the setting is now, if it is anything, is a value without holes. */
  predicate Showable(tunable: Profiles.Tunable, scope: Scope) {
    tunable.observed.Some? && Evaluate(tunable.observed.value, scope).Val? ==>
      Reported(Evaluate(tunable.observed.value, scope).value)
  }

  lemma SettingsAreWritableExactly(facts: Facts.HostFacts, profile: Profiles.Profile, request: Profiles.Request, scope: Scope)
    requires PlanActions(facts, profile, request, scope).Ok?
    ensures FirstUnwritable(PlanActions(facts, profile, request, scope).value.settings).None? <==>
            forall t | t in profile.tunables :: Showable(t, scope)
  {
    var settings := PlanActions(facts, profile, request, scope).value.settings;
    assert ReadAll(profile.tunables, scope) == Ok(settings);
    SettingsReadIsExact(profile.tunables, scope, settings);
  }

  lemma SettingsReadIsExact(tunables: seq<Profiles.Tunable>, scope: Scope, settings: seq<Setting>)
    requires ReadAll(tunables, scope) == Ok(settings)
    ensures FirstUnwritable(settings).None? <==> forall t | t in tunables :: Showable(t, scope)
  {
    FirstUnwritableIsExact(settings);
    ReadAllIsExact(tunables, scope);
    forall i | 0 <= i < |tunables| ensures Writable(settings[i]) <==> Showable(tunables[i], scope) {
      assert Readable(tunables[i], scope) by { assert tunables[i] in tunables; }
    }
    if forall x | x in settings :: Writable(x) {
      forall t | t in tunables ensures Showable(t, scope) {
        var i :| 0 <= i < |tunables| && tunables[i] == t;
        assert settings[i] in settings;
      }
    } else {
      var x :| x in settings && !Writable(x);
      var i :| 0 <= i < |settings| && settings[i] == x;
      assert tunables[i] in tunables;
    }
  }

  lemma FirstUnwritableIsNotShowable(tunables: seq<Profiles.Tunable>, scope: Scope, settings: seq<Setting>)
    requires ReadAll(tunables, scope) == Ok(settings) && FirstUnwritable(settings).Some?
    ensures !Showable(FirstUnwritable(settings).value, scope)
  {
    FirstUnwritableIsExact(settings);
    ReadAllIsExact(tunables, scope);
    var x :| x in settings && !Writable(x) && x.tunable == FirstUnwritable(settings).value;
    var i :| 0 <= i < |settings| && settings[i] == x;
    assert tunables[i] in tunables && Readable(tunables[i], scope);
  }

  /** A refusal about a setting names one that cannot be read, or cannot be shown. */
  lemma DecisionsBlame(blocked: bool, facts: Facts.HostFacts, profile: Profiles.Profile, request: Profiles.Request, scope: Scope)
    ensures var r := Decide(blocked, facts, profile, request, scope);
            && (r.Err? && r.error.Unprovisionable? && AboutASetting(r.error.reason) ==> !Readable(r.error.reason.tunable, scope))
            && (r.Err? && r.error.Unwritable? ==> !Showable(r.error.tunable, scope))
  {
    ActionsBlame(facts, profile, request, scope);
    var actions := PlanActions(facts, profile, request, scope);
    if actions.Ok? && FirstUnwritable(actions.value.settings).Some? {
      FirstUnwritableIsNotShowable(profile.tunables, scope, actions.value.settings);
    }
  }

  /** Everything is decided exactly when no gate blocks, every parameter is sized, the
      host's family has packages, every template is filled in, and every setting can be read
      and shown. */
  lemma DecidedExactly(blocked: bool, facts: Facts.HostFacts, profile: Profiles.Profile, request: Profiles.Request, scope: Scope)
    ensures Decide(blocked, facts, profile, request, scope).Ok? <==>
            && !blocked && Sizing.EvaluateRules(profile.sizing, scope).Ok?
            && Provisionable(facts, profile, request, scope)
            && forall t | t in profile.tunables :: Showable(t, scope)
  {
    ActionsExistExactly(facts, profile, request, scope);
    if PlanActions(facts, profile, request, scope).Ok? {
      SettingsAreWritableExactly(facts, profile, request, scope);
    }
  }

  // ------------------------------------------------------------------------- more facts

  /** The refusal is for want of a fact. */
  predicate LackedAFact(refusal: Refusal) {
    || (refusal.Unsizable? && refusal.error.Unsized?)
    || (refusal.Unprovisionable? && WantsAName(refusal.reason))
    || refusal.Unwritable?
  }

  /** The refusal is for a setting the host had said nothing about before: the fact that is
      now known shows the expression reading it to be wrong, or has a hole in it. */
  predicate NewlyRefused(tunables: seq<Profiles.Tunable>, before: Scope, refusal: Refusal) {
    || (refusal.Unprovisionable? && NewlyWrong(tunables, before, refusal.reason))
    || (refusal.Unwritable? && refusal.tunable in tunables && Unseen(refusal.tunable, before))
  }

  /** The same settings, each seen to be exactly what it was seen to be, or newly seen. */
  ghost predicate SettingsKept(tunables: seq<Profiles.Tunable>, s: Scope, before: seq<Setting>, after: seq<Setting>) {
    && SettingsSettle(tunables, s, before, after)
    && forall i | 0 <= i < |tunables| :: before[i].observed.Some? ==> after[i].observed == before[i].observed
  }

  /** The same parameters, and the same to be done but for settings newly seen. */
  ghost predicate SameDecisions(tunables: seq<Profiles.Tunable>, s: Scope, before: Decided, after: Decided) {
    && after.parameters == before.parameters
    && after.actions == before.actions.(settings := after.actions.settings)
    && SettingsKept(tunables, s, before.actions.settings, after.actions.settings)
  }

  lemma WritableIsKept(tunables: seq<Profiles.Tunable>, s: Scope, before: seq<Setting>, after: seq<Setting>)
    requires SettingsSettle(tunables, s, before, after) && FirstUnwritable(before).None?
    ensures SettingsKept(tunables, s, before, after)
  {
    FirstUnwritableIsExact(before);
    forall i | 0 <= i < |tunables| && before[i].observed.Some? ensures after[i].observed == before[i].observed {
      assert before[i] in before && Writable(before[i]);
      ReportedIsFinal(before[i].observed.value, after[i].observed.value);
    }
  }

  /** What more facts may do to everything that was decided. */
  ghost predicate DecisionsSettle(tunables: seq<Profiles.Tunable>, s: Scope,
                                  before: Result<Decided, Refusal>, after: Result<Decided, Refusal>) {
    && (before == Err(BlockedHost) ==> after == Err(BlockedHost))
    && (|| after == Err(BlockedHost)
        || (after.Err? && NewlyRefused(tunables, s, after.error))
        || (before.Err? && (LackedAFact(before.error) || after == before))
        || (before.Ok? && after.Ok? && SameDecisions(tunables, s, before.value, after.value)))
  }

  lemma NewlyUnwritable(tunables: seq<Profiles.Tunable>, s: Scope, before: seq<Setting>, after: seq<Setting>)
    requires SettingsSettle(tunables, s, before, after) && FirstUnwritable(before).None? && FirstUnwritable(after).Some?
    ensures FirstUnwritable(after).value in tunables && Unseen(FirstUnwritable(after).value, s)
  {
    FirstUnwritableIsExact(before);
    FirstUnwritableIsExact(after);
    var x :| x in after && !Writable(x) && x.tunable == FirstUnwritable(after).value;
    var i :| 0 <= i < |after| && after[i] == x;
    assert before[i] in before && Writable(before[i]);
    if before[i].observed.Some? {
      ReportedIsFinal(before[i].observed.value, after[i].observed.value);
    }
  }

  lemma CombinedSettles(tunables: seq<Profiles.Tunable>, s: Scope, blocked: bool, sizes: Sizes, actions: Result<Actions, ActionError>,
                        blocked': bool, sizes': Sizes, actions': Result<Actions, ActionError>)
    requires blocked ==> blocked'
    requires sizes' == sizes || (sizes.Err? && sizes.error.Unsized?)
    requires || (actions.Ok? && actions'.Ok? && SameActions(tunables, s, actions.value, actions'.value))
             || (actions.Err? && actions' == actions)
             || (actions.Err? && WantsAName(actions.error))
             || (actions'.Err? && NewlyWrong(tunables, s, actions'.error))
    ensures DecisionsSettle(tunables, s, Combined(blocked, sizes, actions), Combined(blocked', sizes', actions'))
  {
    if actions.Ok? && actions'.Ok? && FirstUnwritable(actions.value.settings).None? {
      WritableIsKept(tunables, s, actions.value.settings, actions'.value.settings);
      if FirstUnwritable(actions'.value.settings).Some? {
        NewlyUnwritable(tunables, s, actions.value.settings, actions'.value.settings);
      }
    }
  }
}
