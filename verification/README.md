# Basewright, modelled and proved

Basewright looks at a host, runs gates over what it reported, sizes an engine's parameters
from the same facts, writes the result down as a plan named after its own content, and later
checks a running instance against that plan. This project models the parts of it that decide
something and proves what they promise.

Everything rests on one small interpreter. A profile's gates, sizing rules and verification
conditions are expressions over a scope, and evaluating one has three outcomes that must not
be confused: a value, a fact nobody collected, and a mistake in the expression. A fourth
outcome is modelled beside them because the code has it: an exception that nothing handles.

## How the files fit together

| files | what they hold |
|---|---|
| `Wrappers`, `Text`, `Counting`, `Sorting` | options, the order of text, counting names and places, stable sorting |
| `Values`, `Expressions` | what a scope holds, what "knows at least as much" means, the checker and the evaluator |
| `ExpressionLaws`, `ExpressionOperators`, `ExpressionMeaning` | soundness of the checker, locality, the laws of the operators, and what an expression of each kind comes to |
| `ExpressionSettled`, `ExpressionMonotone` | when a comparison keeps its answer whatever is still to be reported, and when a whole expression does |
| `ExpressionDesugar` | meaning kept by rewriting |
| `Units`, `QuantityReading` | reading and writing byte counts, the error of a round trip, and what is a quantity character by character |
| `SizingRules`, `SizingOrder`, `SizingOrderLaws`, `Sizing`, `SizingPromises` | one rule; the rounds, the ring and the layering of the order; all the rules at once; what every result keeps |
| `Facts`, `Profiles`, `Scope`, `ScopeReading`, `ScopeLeaves` | filesystems and paths, what a profile says, the scope built from one host and what is read back out of it |
| `PreflightModel`, `SharedRules`, `Preflight`, `GateMeaning`, `PreflightWitnesses` | outcomes and reports, the shared gates, a whole preflight run, when a host is refused, and hosts on which a newly collected fact turns it around |
| `VerifyModel`, `Verify`, `VerifyLaws`, `VerifyReading`, `VerifyOutcomes` | readings and judgements, a verification run, what being verified means, what a condition reads, when a check fails |
| `Placeholders`, `TemplateReading`, `Changes`, `ActionContents`, `Decisions` | templates and their values, what applying would do, everything that is decided before a plan is written |
| `Plans`, `PlanContents`, `Store` | writing a plan and naming it after its content, what it tells its reader; a class over stored files, with laws over every run of it |
| `PlanWitnesses` | one host and one profile on which a fact no gate reads decides whether there is a plan |
| `Drift`, `DriftReport`, `Services`, `Loader` | the comparison of two hosts, the merge of service states, the duplicate checks of a profile |
| `Pipeline` | what holds across gates, sizing, plan and verification together |

A loop of the source is a method with a loop, proved equal to a function; the laws are about
that function. The store is a class whose methods state its whole new contents.

## What the proofs found

Where the code does something other than its documentation or its neighbours suggest, the
code is modelled as it is, an input shows the difference, and the exact condition is proved.

- Membership of something that is not text in a text, `1 in 'a'`, is accepted by the checker
  and raises an exception nothing handles (`basewright/expressions.py:436-438`). It is raised
  exactly there (`MembershipInTextEscapes`, `ComparedCrashesExactly`), evaluation of an
  accepted expression never ends any other unexpected way, and never that way when every
  right operand of a membership is written so that it cannot be text.
- Two groups of facts with the same hole compare equal until the hole is filled, because `==`
  on mappings sees inside them (`ComparingGroupsIsNotMonotone`). A comparison keeps its answer
  under everything still to be reported exactly when its operands are equal with nothing left
  to report, or nothing left to report could make them equal (`KeepsAnswerExactly`,
  `ComparingFactsSettlesExactly`). Evaluation is monotone in what a host reports wherever the
  comparisons it reaches are settled in this sense (`SteadyIsMonotone`), and that they are can
  be read off the expression and the scope beforehand (`SolidsAreSteady`).
- `int()` truncates toward zero, so rounding carries a negative raw value upward: minus a half
  of a count is zero (`NegativeIsCarriedUp`, `RoundedIsGreatestMultiple`).
- A fractional floor on a count lets through a value below it (`FractionalFloorIsNotKept`,
  `InsideBoundsExactly`), and in the same case names a bound that moved nothing. A named bound
  leaves the value where it was exactly when a fractional limit truncates onto that value
  (`BoundedByExactly`).
- A negative byte count is refused by the rendering with an error that sizing does not
  translate into its own (`basewright/planner/sizing.py:366-376`). That happens exactly when
  the ceiling is minus one or less, or the raw value is and no higher floor lifts it
  (`NegativeBytesEscape`, `NegativeBytesExactly`).
- A document is refused for two filesystems at one path compared as text, so `/var` and
  `/var/` are both accepted; which of them carries a path then depends on their order
  (`DistinctPathsAreNotEnough`). The order never matters exactly when no two places are the
  same part by part (`OrderIndependentExactly`).
- The judgement on paths passes an instance that reports only purposes the plan does not
  know (`PathsPassProvingNothing`). It proves a planned path exactly when one of them was
  reported (`PathsProveExactly`).
- "No drift" is not transitive through a host that did not say whether its storage spins
  (`NotTransitiveThroughSilence`). Through a host with distinct mounts it is transitive exactly
  when that host reported everything that is compared (`TransitiveExactly`).
- What a host setting is now is read by an expression of the profile over the same facts. A
  missing fact is passed over and a wrong expression refuses the plan, so a host can lose its
  plan by reporting more although no gate blocks it (`PlannedBeforeItIsKnown`,
  `RefusedOnceItIsKnown`). Unblocked, it keeps its plan exactly when every setting it had said
  nothing about can now be read and shown (`PlanSurvivesExactly`).
- A mount whose options nobody collected, and a firewall whose open ports nobody collected,
  get an empty list (`basewright/facts/normalize.py:296`, `basewright/facts/normalize.py:340`),
  where the scope promises a marker for a fact that was not reported
  (`basewright/scope.py:24-27`). So `read_only` reads as no, paths count as writable and the
  port as filtered, and collecting the fact can turn a pass into a block and a warning into a
  pass (`OptionsOnceCollected`, `PortsOnceCollected`). Of all shared rules those two are the
  only ones that change their minds, and exactly there (`SharedRulesAreMonotone`,
  `PathsWritableExactly`, `FirewallStateExactly`, `ScopeRefinesExactly`). "More facts" here
  lets every empty list become any list, so every law about it covers both.
- Such an expression may come to a whole group of facts, and the group may have a hole in it.
  Reading it is accepted, and writing the document then raises an error nothing handles
  (`basewright/planner/changes.py:216`, `basewright/planner/plan.py:157`). It happens on
  settings with a hole in what they come to and on no others (`HoleCannotBeWritten`,
  `DecidedExactly`).
- A template may use the code name of the operating system, which a host need not report and
  no gate asks for. Without it there is no plan (`CodenameDecides`, `ActionsExistExactly`).
- The patterns for ids and names end in `$`, which also matches before a final newline. Such
  an id names a different file (`TrailingNewlineIsAnotherPlan`), and an id reads back from its
  pointer as it was exactly when it does not end so (`PointerReadsBackExactly`).
- A condition the language refuses is raised as an expression error and not as the
  verification error its neighbours become (`basewright/verify/run.py:165-168`). That happens
  exactly when the kind's own promise is kept (`UnreadableConditionEscapes`,
  `UnreadableExactly`).

## Model

| member | source | states |
|---|---|---|
| SizingLaws.EvaluationIsTheSolution | basewright/planner/sizing.py:131-146 | sizing succeeds exactly when an order exists and some assignment solves every rule at once; that assignment is the only one, and each result is its rule re-sized under the scope with every final value in it |
| SizingLaws.ReorderingPermutesResults | basewright/planner/sizing.py:131-146 | reordering the rules of a file permutes the results, changes no value and never turns success into refusal |
| SizingLaws.MoreFactsKeepTheSizes | basewright/planner/sizing.py:131-146 | where the comparisons its formulas reach are settled, replacing any unreported fact by a value changes nothing in a sizing that succeeded, and not the error of one refused for anything but a missing fact |
| SizingLaws.SolidRulesAreSteady | basewright/planner/sizing.py:131-146 | for rules with distinct parameters they are wherever no formula compares a group with a hole in it, which is decided before anything is sized |
| Sizing.SizingLoop | basewright/planner/sizing.py:138-144 | the loop that grows the working scope and the results is the fold over the order |
| Sizing.EvaluateAsWritten | basewright/planner/sizing.py:131-146 | order, loop and report in file order together are the specification, errors included |
| SizingOrder.OrderLoop | basewright/planner/sizing.py:167-179 | the rounds terminate and give the rounds of the specification, or its refusal |
| SizingOrder.CycleWalk | basewright/planner/sizing.py:182-199 | the unbounded walk terminates with the ring of the specification |
| SizingOrder.WalkGrows | basewright/planner/sizing.py:189-199 | every step of the walk exists, stays among the waiting parameters, and there are never more steps than of those |
| SizingOrderLaws.RingIsReal | basewright/planner/sizing.py:182-199 | the ring returned closes on itself, has at least two distinct members, repeats none, and each reads the next |
| SizingOrderLaws.RingIsWalkedTo | basewright/planner/sizing.py:189-199 | and it is the ring that the walk comes to which goes every time to the first by name of the waiting parameters that are needed |
| SizingOrderLaws.RefusalNamesARing | basewright/planner/sizing.py:163-165 | a refusal over readable rules always has a ring of the reads graph behind it, the one it names or a rule that reads itself |
| SizingOrderLaws.OrderExistsExactly | basewright/planner/sizing.py:149-179 | an order exists exactly when every formula is accepted and the reads graph has no ring, self-reads included |
| SizingOrderLaws.OrderIsRight | basewright/planner/sizing.py:149-179 | the order is a permutation, everything read comes strictly earlier, and it is the rules by longest chain of reads, ties in file order |
| SizingOrderLaws.OrderedIsLayered | basewright/planner/sizing.py:171-177 | each round settles exactly one depth |
| SizingOrderLaws.WithinIsLongestChain | basewright/planner/sizing.py:149-154 | the depth that layers the order is the length of the longest chain of reads |
| SizingOrderLaws.TopologicalMeansEarlier | basewright/planner/sizing.py:149-150 | a parameter a rule reads is set at a strictly smaller position of the order |
| SizingPromises.SizedAsPromised | basewright/planner/sizing.py:209-240 | whatever a rule is sized as, on any scope, is the value of its formula rounded to its step and held by its limits, with the bound that held it named, the threshold it went past and a text that reads back; a count from a value not below zero, under whole limits, is inside them, and unheld is the greatest multiple of the step not above the value |
| SizingPromises.RunKeepsPromises | basewright/planner/sizing.py:131-146 | every result of a run keeps all of that, on the scope with every final value in it |
| SizingPromises.NumbersAreSizedExactly | basewright/planner/sizing.py:209-240 | a formula that comes to a number is sized exactly when the fields of its rule can be read and agree, rounding is asked only of what counts in wholes, and no size in bytes would be negative |
| SizingPromises.WordsAreSizedExactly | basewright/planner/sizing.py:243-268 | a rule in words is sized exactly when its formula comes to a text and none of the fields for numbers is there, and as that text |
| SizingPromises.RefusalsAreTrue | basewright/planner/sizing.py:209-354 | a refusal to size names what is wrong with the formula or with a field of the rule, and it is |
| SizingPromises.BoundsAreRead | basewright/planner/sizing.py:319-354 | a bound is read as the one number it stands for in the unit of its rule, and refused by its field where it stands for none |
| SizingRules.RoundedIsGreatestMultiple | basewright/planner/sizing.py:271-283 | rounding gives a multiple of the step and loses less than one; it goes above the raw value exactly for a negative, fractional one whose whole part is already a multiple |
| SizingRules.TruncatedRoundsDownExactly | basewright/planner/sizing.py:357-363 | making a value whole rounds down exactly when it is not negative or already whole |
| SizingRules.BoundedByExactly | basewright/planner/sizing.py:286-303 | with whole limits a bound is named exactly when it moved the value; with any limits a value moved exactly when a bound is named and no fractional limit truncates onto the value |
| SizingRules.InsideBoundsExactly | basewright/planner/sizing.py:286-303 | when a value in whole units is inside its bounds, for fractional and negative bounds too |
| SizingRules.DisplayReadsBack | basewright/planner/sizing.py:366-376 | a size in bytes is shown as a text that reads back as the value, within the error of its unit |
| SizingRules.FractionalFloorIsNotKept | basewright/planner/sizing.py:299-300 | a count below its fractional floor |
| SizingRules.NegativeIsCarriedUp | basewright/planner/sizing.py:271-283 | a count sized from minus a half is zero |
| SizingRules.NegativeBytesExactly | basewright/planner/sizing.py:366-376 | sizing bytes ends in the untranslated rendering error exactly when the limits can be read and the ceiling is minus one or less, or the raw value is and no floor above minus one lifts it |
| SizingRules.NegativeBytesEscape | basewright/planner/sizing.py:366-376 | a rule that ends in it on every scope |
| SizingRules.AdvisoryExactly | basewright/planner/sizing.py:306-316 | the advisory is set exactly when the final value exceeds the limit |
| SizingRules.FittingIsMonotone | basewright/planner/sizing.py:227-240 | a larger raw value never comes out smaller through rounding and bounds |
| SizingRules.SizeIsLocal | basewright/planner/sizing.py:209-225 | sizing a rule depends only on the names its formula reads |
| SizingRules.SizeIsMonotone | basewright/planner/sizing.py:209-225 | where the comparisons its formula reaches are settled, a rule that was sized, or refused as wrong, is sized or refused the same with more facts |
| ExpressionMonotone.SteadyIsMonotone | basewright/expressions.py:323-370 | filling in unreported facts keeps every value and every error, through short circuits, untaken branches and chains, wherever every comparison that evaluating reaches is settled |
| ExpressionMonotone.SolidsAreSteady | basewright/expressions.py:415-449 | every comparison reached is settled if none has a group with a hole in it as an operand, which is decided before evaluating |
| ExpressionSettled.KeepsAnswerExactly | basewright/expressions.py:425-449 | a comparison of two values comes to the same however what is unreported in them is filled in, exactly when it is settled: equal or inside for good, or never able to become so |
| ExpressionMonotone.ComparingFactsSettlesExactly | basewright/expressions.py:425-449 | a comparison of two facts comes to the same on every scope that knows more, exactly when it is settled |
| ExpressionMonotone.EvaluationIsMonotone | basewright/expressions.py:323-370 | the same wherever no comparison has a group with a hole in it as an operand |
| ExpressionMonotone.TruthIsMonotone | basewright/expressions.py:202-214 | where the comparisons reached are settled, a yes, a no or an error stays what it was |
| ExpressionMonotone.SolidValuesAreReported | basewright/expressions.py:362-370 | an operand found solid before evaluating has no hole in its value |
| ExpressionMonotone.ComparingGroupsIsNotMonotone | basewright/expressions.py:425-434 | two groups with the same hole compare equal, and stop being so when one is filled |
| ExpressionSoundness.CheckIsExact | basewright/expressions.py:223-309 | an expression is accepted exactly when every node in it is on the allowlist, and a refusal names one that is not |
| ExpressionSoundness.AcceptedEvaluationIsExpected | basewright/expressions.py:323-359 | an accepted expression gives a value that is never the unreported marker, a missing fact of its own, an expression error, or the one exception of membership in text |
| ExpressionSoundness.ComparedCrashesExactly | basewright/expressions.py:425-449 | that exception is raised exactly for something that is not text tested for membership in text |
| ExpressionSoundness.MembershipInTextEscapes | basewright/expressions.py:436-438 | an accepted expression that raises it on every scope |
| ExpressionSoundness.GuardedNeverCrashes | basewright/expressions.py:425-449 | an expression whose memberships are guarded by how they are written never raises it |
| ExpressionSoundness.EvaluationIsLocal | basewright/expressions.py:188-191 | two scopes that agree on the names of an expression give one outcome |
| Expressions.BooleanLoop | basewright/expressions.py:402-412 | the loop with its early return is the recursive connective |
| Expressions.ComparisonLoop | basewright/expressions.py:415-422 | the loop that moves `left` along is the recursive chain |
| ExpressionOperators.DivisionIsFull | basewright/expressions.py:373-391 | floor division and remainder satisfy dividend = divisor * quotient + remainder, the remainder smaller than the divisor and of its sign, for every sign of the operands |
| ExpressionOperators.FullDivisionIsUnique | basewright/expressions.py:373-391 | no other quotient and remainder do |
| ExpressionOperators.DivisionIdentityHolds | basewright/expressions.py:373-391 | the expression `l // r * r + l % r == l` comes to yes wherever its operands are numbers and the right one is not zero |
| ExpressionOperators.SubtractionIdentityHolds | basewright/expressions.py:373-391 | the expression `l + r - r == l` comes to yes wherever its operands are numbers |
| ExpressionOperators.QuotientIdentityHolds | basewright/expressions.py:373-391 | the expression `l * r / r == l` comes to yes wherever its operands are numbers and the right one is not zero |
| ExpressionOperators.DivisionUndoesMultiplication | basewright/expressions.py:373-391 | true division and multiplication undo each other |
| ExpressionOperators.OrderIsTotal | basewright/expressions.py:452-469 | the ordering operators and equality are one total order on numbers and on texts, and refuse everything else |
| ExpressionMeaning.NumbersCompareBySize | basewright/expressions.py:415-449 | each of the six comparisons of two expressions that come to numbers is answered by their sizes |
| ExpressionMeaning.TextsCompareByFirstDifference | basewright/expressions.py:415-449 | each of the six comparisons of two texts is answered by the first character they differ in, and where there is none the shorter is less |
| ExpressionMeaning.EqualityByKind | basewright/expressions.py:425-434 | what equality compares, kind by kind: yes and no as one and zero, lists place by place, groups key by key, and nothing across kinds |
| ExpressionMeaning.NegatedComparisons | basewright/expressions.py:425-442 | `!=`, `is not` and `not in` answer the other way and fail alike; `is` with none, yes or no asks for that very value |
| ExpressionMeaning.MembershipInText | basewright/expressions.py:435-442 | a text is in another exactly when it stands somewhere in it, and nothing is in anything but a text or a list |
| ExpressionOperators.OrderIsTransitive | basewright/expressions.py:442-449 | that order is transitive |
| ExpressionOperators.EqualityIsAnEquivalence | basewright/expressions.py:438-441 | equality is an equivalence on every value |
| ExpressionOperators.MembershipIsEqualityWithOne | basewright/expressions.py:430-437 | being in a list is being equal to one of its items |
| ExpressionOperators.ComparisonTurnsAround | basewright/expressions.py:415-449 | swapping the operands of a comparison and turning its operator around changes no outcome |
| ExpressionOperators.ChoiceSwaps | basewright/expressions.py:352-355 | negating the test of a choice and swapping its branches changes no outcome |
| ExpressionMeaning.ChoiceFollowsItsTest | basewright/expressions.py:323-359 | a choice comes to its first branch on yes, to its second on no, and fails as its test does; `not` answers the other way |
| ExpressionMeaning.FirstDeciderDecides | basewright/expressions.py:402-412 | `and` is yes when every operand is and `or` no when every operand is; otherwise the first that says something else decides, or fails |
| ExpressionMeaning.ArithmeticIsOfNumbers | basewright/expressions.py:373-399 | the operations on numbers come to the sum, difference, product, quotient and negation of the numbers, and dividing by zero is a mistake |
| ExpressionMeaning.LeftOperandFirst | basewright/expressions.py:373-391 | an operation whose left operand fails fails so, whatever the right one is |
| ExpressionMeaning.ListsKeepTheirItems | basewright/expressions.py:323-359 | a list comes to its items, each in its place, or to the first failure among them |
| ExpressionMeaning.NamesAreLookedUp | basewright/expressions.py:362-370 | what is not there is a mistake, what nobody collected is missing and named, anything else is read |
| ExpressionMeaning.AllowedAlone | basewright/expressions.py:223-309 | which literals are accepted, and that no name may begin with an underscore |
| ExpressionMeaning.NamesAreThoseWritten | basewright/expressions.py:188-191 | the names an expression is said to read are those written anywhere in it |
| ExpressionMeaning.MistakesAreNamed | basewright/expressions.py:323-489 | which mistake an operand of the wrong kind is |
| ExpressionMeaning.FailuresGoThrough | basewright/expressions.py:323-423 | a failure of what an attribute, a sign or a comparison begins with is its failure |
| ExpressionDesugar.NestingPreservesMeaning | basewright/expressions.py:402-412 | an `and` over many operands is its nested binary form, failures included |
| ExpressionDesugar.DeMorgan | basewright/expressions.py:402-412 | negating a connective is the other connective over negated operands, left to right, failures included |
| ExpressionDesugar.OrIsNotAndNot | basewright/expressions.py:402-412 | `or` is `not` of nested `and` of negations, failures included |
| DesugarCorrect.DesugarPreservesMeaning | basewright/expressions.py:323-359 | rewriting a whole expression to nested binary conjunctions and single comparisons changes no outcome |
| DesugarCorrect.PairwisePreservesMeaning | basewright/expressions.py:415-422 | a chained comparison is the conjunction of its adjacent pairs |
| DesugarCorrect.DesugarIsCore | basewright/expressions.py:223-309 | the rewritten form is in the small language, reads the same names, and is accepted exactly when the original is |
| Units.SmallCountsReadBack | basewright/units.py:91-103 | below 1024 a rendered byte count reads back exactly |
| Units.LargeCountsReadBack | basewright/units.py:64-103 | from 1024 on it reads back within a twentieth of its unit and a half, and exactly for whole multiples |
| Units.UnitIsLargest | basewright/units.py:44-49 | the unit chosen is the largest listed one not above the count |
| Units.RenderedReadsBack | basewright/units.py:64-103 | every count that is not negative is rendered, as a text that reads back as the count within the error of its unit |
| QuantityReading.QuantityExactly | basewright/units.py:52-52 | a text is a quantity exactly when it is digits, perhaps a point and more digits, perhaps letters, with blanks around each; and it is read as those |
| QuantityReading.QuantitiesAreRead | basewright/units.py:64-127 | a quantity is its number times the size of its unit to the nearest whole, ties to even; an unlisted unit, or none where one has to be, is refused |
| QuantityReading.UnitsAreSized | basewright/units.py:24-57 | each decimal unit is a thousand of the one before, each binary one 1024, and a second a thousand milliseconds |
| QuantityReading.CountsAreShown | basewright/units.py:91-103 | a count below 1024 is shown as it is, any other to the nearest tenth of the largest binary unit it reaches |
| ScopeBuilder.MoreFactsRefineTheScope | basewright/scope.py:38-151 | collecting missing facts, the options of a mount and the open ports of a firewall among them, refines the scope, the same names and every reported leaf unchanged, unless a planned path turns out to be on a read-only filesystem |
| ScopeReading.ScopeRefinesExactly | basewright/scope.py:120-146 | the scope is refined exactly when no planned path turns out to be on a read-only filesystem, the one leaf that says no where nobody asked |
| ScopeBuilder.ScopeNames | basewright/scope.py:38-50 | the names of a scope do not depend on the host |
| ScopeBuilder.DeepestReveals | basewright/scope.py:120-146 | more facts about filesystems, their options included, never move a path to another one |
| ScopeReading.MachineIsRead | basewright/scope.py:53-94 | an expression that names cores, memory or a kernel setting reads what the host reported, and a missing fact where it was not collected |
| ScopeReading.PathIsRead | basewright/scope.py:120-146 | an expression under a planned path reads the deepest filesystem carrying it, and a missing fact exactly where none does |
| ScopeReading.UnplannedPurposeIsAMistake | basewright/scope.py:38-50 | a purpose the layout does not have is an error in the expression and not a missing fact |
| ScopeLeaves.EverythingIsRead | basewright/scope.py:38-117 | every name under the host, the request and the profile reads the fact it stands for, and a missing one where that was not collected |
| ScopeLeaves.PathsAreRead | basewright/scope.py:120-146 | every name under a planned path reads the path or the filesystem it lives on, and a missing fact where it lives on none |
| ScopeLeaves.ConstantsAreRead | basewright/expressions.py:144-155 | the units of bytes read their sizes, and none itself |
| Facts.ComponentsOfJoined | basewright/facts/model.py:27-34 | a path written from its parts splits into those parts |
| Facts.CarriersFormAChain | basewright/facts/model.py:125-128 | the filesystems carrying one path form a chain |
| Facts.DeepestIsDeepest | basewright/facts/model.py:211-220 | the one found carries the path and lies on or below every other that does; none is found exactly when none does |
| Facts.DeepestExactly | basewright/facts/model.py:211-220 | the filesystem found is the first reported of the deepest that carry the path, and no other |
| Facts.PathsSplitAtSlashes | basewright/facts/model.py:27-37 | a path is taken apart at a slash of either kind and at nothing else |
| Facts.OrderIndependentExactly | basewright/facts/model.py:211-220 | the answer is independent of the order of the list exactly when no two places are the same |
| Facts.DistinctPathsAreNotEnough | basewright/facts/normalize.py:181-197 | two filesystems the normalizer accepts whose order decides the answer |
| Facts.LongerPathIsNoShallower | basewright/facts/model.py:211-220 | a longer path never lives on a shallower filesystem |
| Facts.SharingIsAnEquivalence | basewright/facts/model.py:226-230 | sharing a filesystem is an equivalence on exactly the covered paths; with distinct reported paths its classes are those of one filesystem |
| Facts.SharingReachesBetween | basewright/facts/model.py:226-230 | two paths that share a filesystem share it with every path between them |
| PreflightModel.ReportIsSortedPermutation | basewright/preflight/model.py:142-163 | a report is a sorted permutation of the results |
| GateMeaning.ReportIsInOrder | basewright/preflight/model.py:119-163 | what refuses the host comes before what warns, that before what was skipped, that before what passed, and alike they come by identifier |
| Sorting.SortIsStable | basewright/preflight/model.py:153-163 | what outcome and identifier do not tell apart stays in the order it was asked in |
| PreflightModel.ReportDoesNotDependOnOrder | basewright/preflight/model.py:142-163 | with distinct identifiers the report does not depend on the order the rules were asked in |
| PreflightModel.CountsAddUp | basewright/preflight/model.py:165-187 | the four counts add up to the number of rules; blocked exactly when the count of blocks is not zero |
| PreflightModel.CountingIsPlaces | basewright/preflight/model.py:165-187 | each count is the number of places in the run with that outcome |
| PreflightModel.ReportCounts | basewright/preflight/model.py:142-187 | ordering a report changes none of its counts |
| PreflightModel.AddingARuleNeverUnblocks | basewright/preflight/model.py:172-175 | one more rule never turns a refusal into a pass |
| SharedRules.PathsWritableLoop | basewright/preflight/shared.py:189-210 | the loop that collects unusable paths gives the rule's verdict |
| SharedRules.FreeSpaceLoop | basewright/preflight/shared.py:213-247 | the loop that counts measured paths and collects short ones gives the rule's verdict |
| SharedRules.SeparateMountsLoop | basewright/preflight/shared.py:250-277 | the nested loops give the rule's verdict |
| SharedRules.FilesystemLoop | basewright/preflight/shared.py:280-307 | the loop that collects unusual filesystems gives the rule's verdict |
| SharedRules.NotInstalledLoop | basewright/preflight/shared.py:325-351 | the loop over services, each looked up among the conflicts, gives the rule's verdict |
| GateMeaning.VerdictsAreExact | basewright/preflight/shared.py:68-527 | each of the twenty shared rules is unmet exactly where the host falls short of it, said of the filesystems, ports, services, minimums and settings themselves, and silent exactly where there is nothing to compare |
| GateMeaning.SharedAs | basewright/preflight/shared.py:534-567 | each of them is reported under its own identifier, blocks or warns as listed, is skipped when silent, and passes only otherwise |
| GateMeaning.GatesAreExact | basewright/preflight/engine.py:117-159 | a rule of a profile is unmet, satisfied or silent exactly as its two expressions say, and an error names the rule, the expression and what is wrong with it |
| GateMeaning.ContributedAt | basewright/preflight/engine.py:105-114 | every rule of a profile has its result in its place with its own identifier and severity, unless one of them stops the run |
| GateMeaning.RefusedExactly | basewright/preflight/engine.py:53-90 | a host is refused exactly when it falls short of one of the twelve shared rules that refuse or of a rule of its profile that does |
| GateMeaning.RunReportsEveryRule | basewright/preflight/engine.py:53-90 | a run reports every shared rule and every rule of the profile once, in report order, unless a rule of the profile stops it |
| GateMeaning.LocaleIsSpelled | basewright/facts/model.py:43-53 | two spellings of a locale are the same when they differ in the case or the punctuation of the codeset, and in nothing else |
| GateMeaning.ReducedExactly | basewright/facts/model.py:40-53 | of a codeset letters and digits are kept in order, capitals as small letters |
| SharedRules.SharedRulesAreMonotone | basewright/preflight/shared.py:189-490 | a shared rule decides the same when a missing fact is collected, exactly but for two cases: writing to a path that was fine and turns out to be on a read-only filesystem, and an active firewall that turns out to let the port through |
| SharedRules.PathsWritableExactly | basewright/preflight/shared.py:189-210 | with more facts the verdict on writing stays exactly when it was a refusal already or no planned path turns out to be on a read-only filesystem; one that does is always refused |
| SharedRules.FirewallStateExactly | basewright/preflight/shared.py:469-487 | the verdict on a firewall that was reported stays exactly when it is not active or does not turn out to let the port through; otherwise a warning becomes a pass |
| Preflight.RuleIsMonotone | basewright/preflight/engine.py:117-151 | a contributed rule, its `applies_to` included, comes to the same verdict or mistake with more facts unless it lacked one, and then it had come to nothing, where the comparisons it reaches are settled |
| Preflight.RunsSettle | basewright/preflight/engine.py:53-90 | over a whole run whose gates reach only settled comparisons, only skipped results change, and the warning about the firewall exactly when the port is newly let through, unless a planned path turns out to be read only, which blocks the host; a run stopped by a broken rule stays stopped, by the same mistake or by that of a rule in front of it that had lacked a fact |
| Preflight.ReportsSettle | basewright/preflight/engine.py:53-90 | of any two such runs, a refused host stays refused; passes and blocks never go down, skips never up, and warnings by at most one, and only where the port is newly let through, unless a planned path turns out to be read only, which refuses the host |
| PreflightWitnesses.OptionsOnceCollected | basewright/facts/normalize.py:288-297 | on the fixture hosts, whose mount says no options, collecting `ro` turns the verdict on writing, the leaf `read_only` and the run around: from a host no gate blocks to a blocked one |
| PreflightWitnesses.PortsOnceCollected | basewright/facts/normalize.py:334-341 | on the same hosts behind an active firewall, collecting the port among the open ones turns the one warning of the run into none |
| Preflight.SolidGatesAreSteady | basewright/preflight/engine.py:117-151 | the condition holds of a gate neither of whose expressions compares a group with a hole in it |
| Preflight.PassIsAnAnswer | basewright/preflight/engine.py:117-151 | a contributed rule passes exactly when it applies and its condition comes to yes |
| VerifyLaws.JudgementIsExact | basewright/verify/judge.py:60-333 | for each of the eleven kinds, passing is exactly its promise kept entry by entry |
| VerifyLaws.VerifiedExactly | basewright/verify/run.py:65-73 | a run is verified exactly when it is about this plan and host, every promise is kept and every condition comes to yes |
| VerifyReading.InstanceIsRead | basewright/verify/scope.py:29-57 | every field of every kind that was observed reads what was observed, and every field of a kind that was not is missing |
| VerifyReading.LoopbackOnlyExactly | basewright/verify/judge.py:354-361 | a condition that asks for the loopback alone is met exactly by an instance that holds a socket and none but on a loopback address |
| VerifyReading.PlanIsRead | basewright/verify/scope.py:45-45 | what a condition reads under the plan is the plan |
| VerifyReading.ConstantsAreRead | basewright/verify/scope.py:44-44 | the units of bytes and none read in a condition what they read in a gate |
| VerifyOutcomes.FailureIsExact | basewright/verify/judge.py:60-333 | each of the eleven kinds fails exactly when what was read contradicts what was promised, said entry by entry |
| VerifyOutcomes.OutcomesAreExact | basewright/verify/run.py:131-189 | when a check passes, fails or was not observed, and when its condition stops the run, each exactly |
| VerifyOutcomes.StrangersAreTurnedAway | basewright/verify/run.py:88-128 | an observation of another plan, or of another host, is refused exactly then and as such |
| VerifyOutcomes.EveryCheckIsReported | basewright/verify/run.py:88-128 | every check of a run that is reported has its result in its place |
| VerifyLaws.ConditionsOnlyNarrow | basewright/verify/run.py:153-189 | a condition changes nothing but a pass |
| VerifyLaws.DroppingConditionsKeepsVerified | basewright/verify/run.py:153-189 | dropping every condition keeps a verified run verified |
| VerifyLaws.RunsSettle | basewright/verify/scope.py:29-57 | where the conditions reach only settled comparisons, a reading for a kind that had none changes only unobserved results; a run that could not be reported still cannot, for the same error or for that of a check in front of it that had not been observed |
| VerifyLaws.SolidChecksAreSteady | basewright/verify/run.py:153-189 | they do where no condition compares a group with a hole in it |
| VerifyLaws.UnreadableExactly | basewright/verify/run.py:165-168 | a check ends in a condition that cannot be read exactly when its promise is kept and the language refuses its condition, and no run that has it is reported |
| VerifyLaws.UnreadableConditionEscapes | basewright/verify/run.py:165-168 | a run of one check that ends so on every instance that accepts a connection |
| VerifyLaws.EchoPassesExactly | basewright/verify/judge.py:142-333 | a reading that echoes the plan passes a kind exactly when the plan promises something for it, for parameters without contradicting itself |
| VerifyLaws.PathsProveExactly | basewright/verify/judge.py:177-209 | a pass on paths proves a planned one exactly when the instance reports one |
| VerifyLaws.PathsPassProvingNothing | basewright/verify/judge.py:201-209 | a pass that proves none |
| VerifyModel.JudgePathsLoop | basewright/verify/judge.py:187-202 | comparing purpose by purpose, in any order, gives the judgement |
| VerifyModel.WantedLoop | basewright/verify/judge.py:297-333 | the settings that were promised, filled in a key at a time |
| Plans.BuiltPlanIsWhatItCallsItself | basewright/planner/plan.py:69-129 | a plan exists exactly when no gate blocks, every parameter is sized, the family has packages, every template is filled in, and every setting can be read and shown; and it passes the reader's check for any digest |
| Plans.WrittenSaysWhatWasDecided | basewright/planner/plan.py:97-129 | every section that says what was decided is in the plan as it was decided |
| PlanContents.PlansTellWhatWasPromised | basewright/planner/plan.py:69-129 | a plan that was built tells of every gate, parameter, package, file, setting and secret in its place, every parameter keeps what its rule promises, and every text is that of its own template |
| PlanContents.CopiesAreTold | basewright/planner/plan.py:97-129 | what was copied is in the plan as it was given, with the moment and the versions, and there is no other section |
| PlanContents.NamedOnlyOnce | basewright/planner/plan.py:147-158 | a document that already has a name or a moment is refused one, and any other is named by its digest |
| PlanContents.RefusedInOrder | basewright/planner/plan.py:82-95 | what is refused is the first of these that is so: a gate blocks, a parameter is not sized, something is not filled in or read, a setting cannot be shown |
| Decisions.DecidedExactly | basewright/planner/plan.py:82-92 | everything is decided exactly under those conditions |
| Decisions.DecisionsBlame | basewright/planner/changes.py:201-224 | a refusal about a host setting names one that cannot be read, or whose value cannot be written |
| Changes.ActionsExistExactly | basewright/planner/changes.py:51-114 | what is to be done can be said exactly when the family has packages, every template of the profile is filled in, and every setting comes to a value or a missing fact |
| ActionContents.VocabularyExactly | basewright/planner/changes.py:120-137 | a template may use ten names, each standing for its own part of the request or of the system of the host, the major version for what comes before the first dot |
| ActionContents.ActionsAreCarried | basewright/planner/changes.py:51-224 | what is to be done is what the profile says for the family, each package, service, destination, url, suite and location the text of its own template, and each setting beside what it is now |
| ActionContents.ActionsAreRefusedInOrder | basewright/planner/changes.py:51-114 | a refusal is about the first template or setting that cannot be done, in the order they are taken, and true of it |
| Changes.ReadAllIsExact | basewright/planner/changes.py:201-224 | the settings are those of the profile, in order, each with what reading it came to |
| Changes.ActionsSettle | basewright/planner/changes.py:51-114 | with more facts what is to be done is the same but for settings newly seen, and so is a refusal, unless it wanted for a name or a newly reported fact shows a setting to be written wrongly |
| Placeholders.SubstituteIsExact | basewright/placeholders.py:36-64 | a template is filled in exactly when every name it uses has a value and no brace is left; a refusal names one of its names that is none, or that this host did not report |
| Placeholders.SubstitutePersists | basewright/placeholders.py:36-64 | a template is filled in or refused the same whatever else is reported, unless it wanted for a name |
| Placeholders.WrittenReadsBack | basewright/placeholders.py:29-64 | scanning a template gives back the text and the names it was written from |
| TemplateReading.PlaceholderExactly | basewright/placeholders.py:28-29 | a placeholder starts exactly where two braces, a name and two braces are written with any blanks inside them |
| TemplateReading.SpellableExactly | basewright/placeholders.py:28-29 | a name is a word of small letters and underscores, or two with a dot between |
| Placeholders.BracelessIsItself | basewright/placeholders.py:36-64 | a text without braces is filled in as itself |
| PlanWitnesses.NoGateBlocks | basewright/preflight/engine.py:53-90 | on the fixture hosts no gate blocks, whatever the tunables, the suite, the code name and the swappiness |
| PlanWitnesses.PlannedBeforeItIsKnown | basewright/planner/changes.py:201-224 | such a host, with a tunable that divides by its swappiness, has a plan while that was not collected |
| PlanWitnesses.RefusedOnceItIsKnown | basewright/planner/changes.py:201-224 | the same host, known to swap at zero, has none |
| PlanWitnesses.HoleCannotBeWritten | basewright/planner/plan.py:141-158 | a tunable that reads a group with a hole in it leaves a host without a plan |
| PlanWitnesses.CodenameDecides | basewright/planner/changes.py:151-175 | a host whose repository suite uses its code name has a plan exactly when that was collected and leaves no brace |
| Plans.NamedIsWhatItCallsItself | basewright/planner/plan.py:132-158 | naming a document and reducing it again gives the document that was named |
| Plans.SameNameExactlySameContent | basewright/cli.py:572-582 | two plans that pass the check carry one name exactly when they agree on everything but the moment |
| Plans.PlanWarnings | basewright/planner/plan.py:82-118 | a plan that is produced says no gate blocked, counts every other gate once, and one warning for each gate that warned and each parameter past its threshold, and asks for acknowledgement exactly when there is one |
| Plans.AdvisedCountsExactly | basewright/planner/plan.py:111-118 | the count of advised parameters is the number of places where one is past its threshold |
| Store.PlanStore.Keep | basewright/store.py:82-99 | writes the file only where there is none; the whole new contents and the answer |
| Store.PlanStore.Read | basewright/store.py:102-113 | the bytes under an id, or which of the two errors |
| Store.PlanStore.WhichIsApplied | basewright/store.py:116-127 | the id the pointer holds, or which of the two errors |
| Store.PlanStore.WritePointer | ansible/playbooks/apply.yml:190-196 | the pointer is overwritten with one line and nothing else changes |
| StoreLaws.PlanPathsAreDistinct | basewright/store.py:67-69 | two ids never share a file |
| StoreLaws.InstancePathsAreDistinct | basewright/store.py:72-79 | two accepted pairs of host and instance never share a pointer |
| StoreLaws.NamesExactly | basewright/store.py:47-51 | which texts are ids and which are names, length and characters, with the newline either may end in |
| StoreLaws.AnswersAreExact | basewright/store.py:102-127 | which refusal there is when a plan or a pointer is asked for, and exactly when |
| StoreLaws.BytesNeverChange | basewright/store.py:82-99 | in every run, the bytes under an id never change once there |
| StoreLaws.HeldPlansAreSound | basewright/cli.py:572-582 | in every run that keeps built plans, whatever is held reads as one of them, under its own name, and passes the reader's check |
| StoreLaws.KeptPlansAreFoundAgain | basewright/store.py:82-113 | a plan kept anywhere in a run is found at its end, the same in everything but the moment |
| StoreLaws.PointerIsLastWritten | basewright/store.py:116-127 | in every run, an instance is said to run the last id written for its pair, whatever else was written; nobody said exactly when none was |
| StoreLaws.PointerReadsBackExactly | basewright/store.py:116-127 | an accepted id reads back as it was exactly when it does not end in a newline |
| StoreLaws.TrailingNewlineIsAnotherPlan | basewright/store.py:47-51 | an accepted id ending in a newline names another file |
| Drift.CollectLoop | basewright/drift.py:116-155 | the loop all three comparisons are |
| Drift.DifferencesAsWritten | basewright/drift.py:99-113 | the three comparisons, collected |
| Drift.NoDriftExactly | basewright/drift.py:99-223 | no difference exactly when reported identity agrees, cores and memory have not shrunk, and every planned filesystem stands |
| DriftReport.DifferencesAreExact | basewright/drift.py:99-223 | a difference is reported exactly when it is one, with what was planned and what was found |
| Drift.ReflexiveExactly | basewright/drift.py:158-188 | a host has not drifted from itself exactly when no two of its own entries for one mount contradict each other |
| Drift.DistinctMountsAreCoherent | basewright/drift.py:171-175 | distinct mounts never do |
| Drift.TransitiveThroughReported | basewright/drift.py:99-223 | no drift is transitive through a host that reported everything, between hosts of any shape |
| Drift.TransitiveExactly | basewright/drift.py:99-223 | through a host with distinct mounts it is transitive exactly when that host reported everything compared, also when only hosts as plans record them are considered |
| Drift.NotTransitiveThroughSilence | basewright/drift.py:191-223 | three hosts as plans record them, alike but for whether storage spins, the middle one not saying |
| Drift.GrowthIsNotDrift | basewright/drift.py:137-155 | growth never adds a difference: whatever a grown host still shows it showed before, the same or no worse |
| Drift.FreeSpaceIsNotDrift | basewright/drift.py:191-223 | changing free space on either side changes no difference |
| Drift.MoreFactsAreNotDrift | basewright/facts/model.py:275-316 | the host a plan was built on is still that host however many facts were collected since, mount options and open ports among them |
| Loader.FileLoop | basewright/profiles/loader.py:277-294 | the loop over one file remembers first uses and reports exactly the later ones |
| Loader.IdentifiersLoop | basewright/profiles/loader.py:246-274 | the loop over files reports the duplicates across all of them |
| Loader.ProblemsAreTotalMinusDistinct | basewright/profiles/loader.py:246-274 | as many problems as uses minus distinct names, each naming the first use |
| Loader.FirstUseIsFirst | basewright/profiles/loader.py:258-264 | the use remembered has no earlier one of that name |
| Loader.NoProblemsExactly | basewright/profiles/loader.py:246-274 | no problem exactly when no name is used twice |
| Loader.IdentifiersAreUniqueExactly | basewright/profiles/loader.py:246-274 | no problem exactly when no two gates, sizing rules, configuration files and checks of a profile share an identifier, within a file or across them |
| Loader.UsesAreWhereTheyAre | basewright/profiles/loader.py:246-264 | where an identifier is used is said by its own file and its position in it |
| Loader.SetOnceExactly | basewright/profiles/loader.py:277-294 | no problem exactly when the rules set distinct parameters, which sizing relies on |
| Loader.UnshadowedExactly | basewright/profiles/loader.py:303-322 | no problem exactly when no parameter is a name expressions already read |
| Loader.ReservedExactly | basewright/profiles/loader.py:297-303 | the reserved names are the units of bytes, none and the four groups of a scope |
| Loader.AcceptedExactly | basewright/profiles/loader.py:246-322 | a profile is accepted exactly when no two entries share an identifier, no two sizing rules set one parameter, and none sets a reserved name |
| Loader.AcceptedProfileSatisfiesThePlanner | basewright/profiles/loader.py:277-322 | an accepted profile meets what sizing demands, on every host |
| Loader.AcceptedProfileHasOneSizing | basewright/profiles/loader.py:303-322 | and its one solution hides no fact behind a parameter |
| Services.MergeLoop | basewright/facts/collect.py:132-143 | the loop that keeps the more definite state is the merge |
| Services.MergeIsMaximum | basewright/facts/collect.py:134-141 | the merge is, for every name mentioned and no other, the most definite state anybody reported |
| Services.MergeDoesNotDependOnOrder | basewright/facts/collect.py:118-143 | the list does not depend on the order of what was collected |
| Services.ListIsComplete | basewright/facts/collect.py:143-143 | every service mentioned once, strictly by name, with its most definite state, and nothing else |
| Services.RunningBeatsStopped | basewright/facts/collect.py:109-143 | a service is listed as running when any unit of its was, else as stopped when any was, else as installed |
| Services.UnitsAreRead | basewright/facts/collect.py:132-140 | a unit is running or stopped exactly when it was said so in any case of letters, and its service is its name without the suffix |
| Pipeline.MoreFactsKeepThePlanOrBlockIt | basewright/planner/plan.py:69-129 | where gates, formulas and reads of settings reach only settled comparisons, with more facts a blocked host stays blocked; one with a plan is blocked, refused for a setting it had said nothing about, or planned with parameters, packages, configuration and secrets as they were and settings as they were or newly seen; one without, and not for want of a fact, keeps its refusal or meets one of those two |
| Pipeline.PlanSurvivesExactly | basewright/planner/changes.py:201-224 | where no gate blocks it, a host that had a plan still has one exactly when every setting it had said nothing about can now be read and shown |
| Pipeline.SizedPlansAreConsistent | basewright/verify/judge.py:142-174 | sizing never promises one parameter twice |
| Pipeline.EchoOfASizedPlanIsVerified | basewright/verify/run.py:88-128 | an instance that reads back as a sized plan says is verified, by checks without conditions, exactly when each kind was promised something |

## Left out

- Parsing text into trees, and rendering trees back into text: an expression starts as its
  tree, and a missing fact is named by the node that read it.
- JSON and SHA-256: a serializer and a digest are parameters. Where a property needs it, the
  plans of the run at hand read back from their bytes and are told apart by the digest.
- IEEE floats: numbers are exact integers and reals, so overflow, rounding and not-a-number
  are not modelled. Python's `//` and `%` are modelled as flooring.
- Object identity: `is` is modelled as equality, which is what it is on none and booleans.
- Characters outside ASCII in quantities, names and service states.
- Messages, hints, remediations and the report text; of a ring, the ring and not its sentence.
- How a parameter other than bytes is displayed, and why a rule exists.
- Resolving the paths of a layout, which is done before any gate and reads no fact; planned
  paths are inputs, their free space in bytes.
- The sections of a plan that decide nothing: the profile's and the request's, the host's, the
  layout and the initialization are values a plan is given. The narrative of changes is any
  function of what was decided. In verification the plan's own document, which a profile's
  condition may read, is a value beside the parts the judgements read.
- Dictionaries a drift check digs through by dotted name are a record with optional fields.
- Dates: the end of life of a version is a day number.
- File permissions, directories, and listing what a store holds.
- The command line, schema validation, and the loader's checks on engines, families,
  templates and separations.
- The other collectors of facts: sockets, firewalls, mounts, probes.
- Facts that only messages and a plan's account of its host read: the model of the processor, which
  process listens, the version and the ports of a service.
- Rows for the single-branch shared rules (cores, memory, port, version and their like): they
  are modelled and covered by the lemmas over every shared rule, and say nothing more alone.
- ExpressionSettled.KeepsAnswerExactly: says nothing of `is` and `is not`, whose answer on
  groups depends on the interpreter; they count as settled only between reported values.
- ExpressionMonotone.EvaluationIsMonotone: its condition is sufficient and not necessary, since
  a group with a hole compared with a number is settled too; the general law is the one about
  steady expressions.
- StoreLaws.KeptPlansAreFoundAgain: for ids the store accepts; a plan built with any other
  digest is refused by the store.
