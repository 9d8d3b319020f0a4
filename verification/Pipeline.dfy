// From one host to one plan, and from that plan to the run that proves it: what holds
// across the gates, the sizing, the plan and the verification together.
module Pipeline {
  import opened Wrappers
  import opened Values
  import Changes
  import Decisions
  import Facts
  import Monotone = ExpressionMonotone
  import Placeholders
  import PreflightModel
  import Plans
  import Preflight
  import Profiles
  import ScopeBuilder
  import SharedRules
  import Sizing
  import SizingLaws
  import SizingRules
  import Verify
  import VerifyLaws
  import VerifyModel

  /** Every comparison that the gates, the formulas and the reads of host settings reach is
      settled. */
  ghost predicate Steady(c: SharedRules.Context) {
    && (forall gate | gate in c.profile.gates :: Preflight.GateSteady(gate, Preflight.ScopeOf(c)))
    && SizingLaws.SteadyRules(c.profile.sizing, Preflight.ScopeOf(c))
    && SteadySettings(c.profile.tunables, Preflight.ScopeOf(c))
  }

  ghost predicate SteadySettings(tunables: seq<Profiles.Tunable>, s: Scope) {
    forall u | u in tunables && u.observed.Some? :: Monotone.SteadyIfRead(u.observed.value, s)
  }

  type Report = seq<PreflightModel.GateResult>

  type Planned = Result<Plans.Document, Decisions.Refusal>

  /** Everything decided about a host, settled by more facts. */
  lemma MoreFactsSettleTheDecisions(c: SharedRules.Context, d: SharedRules.Context, before: Report, after: Report)
    requires SharedRules.ContextReveals(c, d) && Steady(c)
    requires Preflight.Run(c) == Ok(before) && Preflight.Run(d) == Ok(after)
    ensures Decisions.DecisionsSettle(c.profile.tunables, Preflight.ScopeOf(c),
                                      Plans.DecideFor(before, c), Plans.DecideFor(after, d))
  {
    var s, t := Preflight.ScopeOf(c), Preflight.ScopeOf(d);
    BlockedStaysBlocked(c, d, before, after);
    if !SharedRules.TurnsReadOnly(c, d) {
      ScopeBuilder.MoreFactsRefineTheScope(c.facts, d.facts, c.profile, c.request, c.paths);
      FactsSettleTheDecisions(c.facts, d.facts, c.profile, c.request, s, t,
                              PreflightModel.IsBlocked(before), PreflightModel.IsBlocked(after));
    }
  }

  lemma BlockedStaysBlocked(c: SharedRules.Context, d: SharedRules.Context, before: Report, after: Report)
    requires SharedRules.ContextReveals(c, d) && Steady(c)
    requires Preflight.Run(c) == Ok(before) && Preflight.Run(d) == Ok(after)
    ensures PreflightModel.IsBlocked(before) || SharedRules.TurnsReadOnly(c, d) ==> PreflightModel.IsBlocked(after)
  {
    Preflight.ReportsSettle(c, d);
  }

  lemma FactsSettleTheDecisions(f: Facts.HostFacts, g: Facts.HostFacts, profile: Profiles.Profile, request: Profiles.Request,
                                s: Scope, t: Scope, blocked: bool, blocked': bool)
    requires ScopeBuilder.FactsReveal(f, g) && ScopeRefines(s, t) && (blocked ==> blocked')
    requires SizingLaws.SteadyRules(profile.sizing, s) && SteadySettings(profile.tunables, s)
    ensures Decisions.DecisionsSettle(profile.tunables, s, Decisions.Decide(blocked, f, profile, request, s),
                                      Decisions.Decide(blocked', g, profile, request, t))
  {
    SizingLaws.MoreFactsKeepTheSizes(profile.sizing, s, t);
    VocabularyReveals(f, g, request);
    Changes.ActionsSettle(f, g, profile, request, s, t);
    Decisions.CombinedSettles(
      profile.tunables, s,
      blocked, Sizing.EvaluateRules(profile.sizing, s), Changes.PlanActions(f, profile, request, s),
      blocked', Sizing.EvaluateRules(profile.sizing, t), Changes.PlanActions(g, profile, request, t));
  }

  lemma VocabularyReveals(f: Facts.HostFacts, g: Facts.HostFacts, request: Profiles.Request)
    requires ScopeBuilder.FactsReveal(f, g)
    ensures Placeholders.Reveals(Changes.Vocabulary(f, request), Changes.Vocabulary(g, request))
  {
  }

  /** Both documents have the section, and it is the same. */
  predicate Share(a: Plans.Document, b: Plans.Document, key: string) {
    key in a && key in b && a[key] == b[key]
  }

  /** Both documents say the same of what was decided, but for settings newly seen. */
  ghost predicate SayTheSame(tunables: seq<Profiles.Tunable>, s: Scope, a: Plans.Document, b: Plans.Document) {
    && Share(a, b, "parameters") && Share(a, b, "packages") && Share(a, b, "configuration") && Share(a, b, "secrets")
    && "tunables" in a && "tunables" in b
    && exists x, y | Decisions.SettingsKept(tunables, s, x, y) ::
         a["tunables"] == Plans.TunablesSection(x) && b["tunables"] == Plans.TunablesSection(y)
  }

  lemma SameDecisionsSayTheSame(tunables: seq<Profiles.Tunable>, s: Scope, x: Decisions.Decided, y: Decisions.Decided,
                                before: Report, after: Report, a: Plans.Document, b: Plans.Document)
    requires Decisions.SameDecisions(tunables, s, x, y)
    requires Plans.Says(a, Plans.DecidedSections(before, x)) && Plans.Says(b, Plans.DecidedSections(after, y))
    ensures SayTheSame(tunables, s, a, b)
  {
    Plans.SectionsSaid(a, before, x);
    Plans.SectionsSaid(b, after, y);
  }

  /** What more facts may do to a plan, or to the want of one. */
  ghost predicate PlansSettle(tunables: seq<Profiles.Tunable>, s: Scope, before: Planned, after: Planned) {
    && (before == Err(Decisions.BlockedHost) ==> after == Err(Decisions.BlockedHost))
    && (|| after == Err(Decisions.BlockedHost)
        || (after.Err? && Decisions.NewlyRefused(tunables, s, after.error))
        || (before.Err? && (Decisions.LackedAFact(before.error) || after == before))
        || (before.Ok? && after.Ok? && SayTheSame(tunables, s, before.value, after.value)))
  }

  /** Collecting facts that were missing keeps a blocked host blocked. A host that had a
      plan is refused by a gate now, or is refused for a setting it had said nothing about,
      or has a plan that says the same but for settings newly seen: nothing it learns can
      make sizing or a template fail or change what they came to. A host that had none, and
      not for want of a fact, has none for the same reason or for one of those two. */
  lemma MoreFactsKeepThePlanOrBlockIt(digest: Plans.Digest, c: SharedRules.Context, d: SharedRules.Context,
                                      before: Report, after: Report, v: Plans.Writing, w: Plans.Writing)
    requires SharedRules.ContextReveals(c, d) && Steady(c)
    requires Preflight.Run(c) == Ok(before) && Preflight.Run(d) == Ok(after)
    ensures PlansSettle(c.profile.tunables, Preflight.ScopeOf(c),
                        Plans.BuildPlan(digest, before, c, v), Plans.BuildPlan(digest, after, d, w))
  {
    MoreFactsSettleTheDecisions(c, d, before, after);
    WrittenSettles(digest, c.profile.tunables, Preflight.ScopeOf(c), before, after,
                   Plans.DecideFor(before, c), Plans.DecideFor(after, d), v, w);
  }

  type Deciding = Result<Decisions.Decided, Decisions.Refusal>

  lemma WrittenSettles(digest: Plans.Digest, tunables: seq<Profiles.Tunable>, s: Scope, before: Report, after: Report,
                       x: Deciding, y: Deciding, v: Plans.Writing, w: Plans.Writing)
    requires Decisions.DecisionsSettle(tunables, s, x, y)
    ensures PlansSettle(tunables, s, Plans.WrittenIfDecided(digest, before, x, v), Plans.WrittenIfDecided(digest, after, y, w))
  {
    if x.Ok? {
      Plans.WrittenSaysWhatWasDecided(digest, before, x.value, v);
    }
    if y.Ok? {
      Plans.WrittenSaysWhatWasDecided(digest, after, y.value, w);
    }
    if x.Ok? && y.Ok? {
      SameDecisionsSayTheSame(tunables, s, x.value, y.value, before, after,
                              Plans.Written(digest, before, x.value, v).value, Plans.Written(digest, after, y.value, w).value);
    }
  }

  /** Where no gate blocks it now, a host that had a plan still has one exactly when every
      setting it had said nothing about can be read and shown: those are all that can cost it
      the plan. */
  lemma PlanSurvivesExactly(c: SharedRules.Context, d: SharedRules.Context, before: Report, after: Report)
    requires SharedRules.ContextReveals(c, d) && Steady(c)
    requires Preflight.Run(c) == Ok(before) && Preflight.Run(d) == Ok(after)
    requires Plans.DecideFor(before, c).Ok? && !PreflightModel.IsBlocked(after)
    ensures Plans.DecideFor(after, d).Ok? <==>
            SettingsSurvive(c.profile.tunables, Preflight.ScopeOf(c), Preflight.ScopeOf(d))
  {
    MoreFactsSettleTheDecisions(c, d, before, after);
    SurvivesExactly(c.facts, d.facts, c.profile, c.request, Preflight.ScopeOf(c), Preflight.ScopeOf(d), Plans.DecideFor(before, c));
  }

  predicate SettingsSurvive(tunables: seq<Profiles.Tunable>, s: Scope, t: Scope) {
    forall u | u in tunables && Changes.Unseen(u, s) :: Changes.Readable(u, t) && Decisions.Showable(u, t)
  }

  lemma SurvivesExactly(f: Facts.HostFacts, g: Facts.HostFacts, profile: Profiles.Profile, request: Profiles.Request,
                        s: Scope, t: Scope, x: Deciding)
    requires x.Ok?
    requires Decisions.DecisionsSettle(profile.tunables, s, x, Decisions.Decide(false, g, profile, request, t))
    ensures Decisions.Decide(false, g, profile, request, t).Ok? <==> SettingsSurvive(profile.tunables, s, t)
  {
    Decisions.DecidedExactly(false, g, profile, request, t);
    Decisions.DecisionsBlame(false, g, profile, request, t);
  }

  // ------------------------------------------------------------------ proving the plan

  /** The parameters a plan promises, as a verification reads them off it. */
  function Promised(sized: seq<SizingRules.Sized>): seq<(string, Value)> {
    seq(|sized|, i requires 0 <= i < |sized| => (sized[i].parameter, sized[i].value))
  }

  /** Sizing never promises one parameter twice. */
  lemma SizedPlansAreConsistent(rules: seq<SizingRules.Rule>, scope: Scope, plan: VerifyModel.Plan)
    requires SizingLaws.Distinct(rules) && Sizing.EvaluateRules(rules, scope).Ok?
    requires plan.parameters == Promised(Sizing.EvaluateRules(rules, scope).value)
    ensures VerifyLaws.Consistent(plan)
    ensures VerifyLaws.Promises(VerifyModel.Parameters, plan) <==> rules != []
  {
    SizingLaws.SizingIsLocal();
    SizeNamesItsParameter();
    PromisedOnce(SizingRules.Size, rules, scope, plan);
  }

  /** What a rule's result is filed under is what the rule sets. */
  ghost predicate NamesItsParameter(size: Sizing.Sizer) {
    forall r: SizingRules.Rule, s: Scope {:trigger size(r, s)} :: size(r, s).Ok? ==> size(r, s).value.parameter == r.parameter
  }

  lemma SizeNamesItsParameter()
    ensures NamesItsParameter(SizingRules.Size)
  {
  }

  lemma PromisedOnce(size: Sizing.Sizer, rules: seq<SizingRules.Rule>, scope: Scope, plan: VerifyModel.Plan)
    requires SizingLaws.Local(size) && NamesItsParameter(size) && SizingLaws.Distinct(rules)
    requires Sizing.EvaluateRulesWith(size, rules, scope).Ok?
    requires plan.parameters == Promised(Sizing.EvaluateRulesWith(size, rules, scope).value)
    ensures VerifyLaws.Consistent(plan) && (plan.parameters != [] <==> rules != [])
  {
    var sized := Sizing.EvaluateRulesWith(size, rules, scope).value;
    var values := SizingLaws.RunIsSelfConsistent(size, rules, scope);
    ResultsAreInFileOrder(size, rules, scope, sized, values);
    NamedApartIsConsistent(rules, sized, plan);
  }

  lemma ResultsAreInFileOrder(size: Sizing.Sizer, rules: seq<SizingRules.Rule>, scope: Scope,
                              sized: seq<SizingRules.Sized>, values: Scope)
    requires NamesItsParameter(size) && SizingLaws.SelfConsistent(size, rules, scope, sized, values)
    ensures |sized| == |rules| && forall i | 0 <= i < |rules| :: sized[i].parameter == rules[i].parameter
  {
    forall i | 0 <= i < |rules| ensures sized[i].parameter == rules[i].parameter {
      assert size(rules[i], scope + values) == Ok(sized[i]);
    }
  }

  lemma NamedApartIsConsistent(rules: seq<SizingRules.Rule>, sized: seq<SizingRules.Sized>, plan: VerifyModel.Plan)
    requires SizingLaws.Distinct(rules) && |sized| == |rules| && plan.parameters == Promised(sized)
    requires forall i | 0 <= i < |rules| :: sized[i].parameter == rules[i].parameter
    ensures VerifyLaws.Consistent(plan) && |plan.parameters| == |rules|
  {
    forall e, f | e in plan.parameters && f in plan.parameters && e.0 == f.0 ensures VerifyModel.Same(e.1, f.1) {
      var i :| 0 <= i < |rules| && plan.parameters[i] == e;
      var j :| 0 <= j < |rules| && plan.parameters[j] == f;
      assert rules[i].parameter == rules[j].parameter;
      VerifyLaws.SameReflexive(e.1);
    }
  }

  /** An instance that reads back as the plan says is verified, by checks that carry no
      condition of their own, exactly when the plan promises something for each of their
      kinds: what sizing planned never contradicts itself, so nothing else can fail. */
  lemma EchoOfASizedPlanIsVerified(rules: seq<SizingRules.Rule>, scope: Scope, plan: VerifyModel.Plan, checks: seq<Verify.VerifyCheck>)
    requires SizingLaws.Distinct(rules) && Sizing.EvaluateRules(rules, scope).Ok?
    requires plan.parameters == Promised(Sizing.EvaluateRules(rules, scope).value)
    requires forall check | check in checks :: check.expr.None?
    ensures var run := Verify.Run(plan, checks, VerifyLaws.Echo(plan));
            run.Ok? && (Verify.Verified(run.value) <==>
                        forall check | check in checks :: VerifyLaws.Promises(check.kind, plan))
  {
    SizedPlansAreConsistent(rules, scope, plan);
    var echo := VerifyLaws.Echo(plan);
    var s := Verify.VerificationScope(plan, echo);
    VerifyLaws.VerifiedExactly(plan, checks, echo);
    VerifyLaws.CheckAllAnswers(checks, plan, echo, s);
    forall i | 0 <= i < |checks|
      ensures Verify.CheckOutcome(checks[i], plan, echo, s).Ok?
      ensures VerifyLaws.Met(checks[i], plan, echo) <==> VerifyLaws.Promises(checks[i].kind, plan)
    {
      assert checks[i] in checks;
      VerifyLaws.EchoPassesExactly(checks[i].kind, plan);
      VerifyLaws.JudgementIsExact(checks[i].kind, plan, echo);
    }
    forall check | check in checks
      ensures VerifyLaws.Met(check, plan, echo) <==> VerifyLaws.Promises(check.kind, plan)
    {
      var i :| 0 <= i < |checks| && checks[i] == check;
    }
  }
}
