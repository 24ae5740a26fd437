# Fueled shuttle thrusters

A Dafny model of the thruster core of the EphemeralSpace fork of Space Station 14.

A shuttle grid adds up the thrust of its thrusters that are switched on. It keeps one bucket per cardinal direction for linear thrust and one bucket for rotation. Each bucket holds the set of member thrusters and a running total. The fork adds *fueled* thrusters. At every atmospheric update, a fueled thruster compares the gas at its inlet with a list of gas rules. From that comparison it derives a thrust multiplier and a gas-consumption efficiency, both clamped to configured bounds. It then updates its shuttle bucket by the change in thrust, switches itself on or off according to whether fuel is present, and consumes gas while firing.

Each file models one part of the core:

- `gas_comparators.dfy`, module `GasComparators`: the gas-mixture comparators of `AtmosphereSystem` (similarity, percentages, the threshold test, purity ratio, any-required-gas). Each comparator is a method with its loop, proved against a specification function, with lemmas for the properties the doc comments promise.
- `performance.dfy`, module `Performance`: the rule evaluation of `OnAtmosUpdateEvent` (the benefit of each rule, the products, fuel detection, and clamping) as a loop proved against a fold.
- `thruster_data.dfy`, module `ThrusterData`: the `ThrusterComponent` fields and their declared defaults.
- `shuttle_thrust.dfy`, module `ShuttleThrust`: the shuttle's thrust buckets. `bookkeeping.dfy`, module `Bookkeeping`: the system-wide invariant `Consistent`. It says that every shuttle counts exactly the thrusters that are on at its grid, in the bucket they face, and that every bucket total is the sum of its members' thrust.
- `thruster_system.dfy`, module `ThrusterSystems`: `ThrusterSystem` as a class whose component stores are map fields. Every handler states its new state and that it keeps `Consistent`.
- `es_thruster_system.dfy`, module `EsThrusterSystems`: the refactored, partly unfinished `EsThrusterSystem`, with comparison lemmas against the original.
- `directions.dfy`, module `Directions`: the `DirectionFlag` bit mask and `GetFlagIndex`.
- `burning.dfy`, module `Burning`: the exhaust-damage tick and the contact list.

Engine queries (whether the entity is powered, whether the tile behind the nozzle is space, the inlet's pipe node, the current time) are parameters of the methods that use them. A transform is the part of `TransformComponent` the systems read: the grid, the cardinal direction of the rotation, and the anchored flag. `OnRotate` reads the old *parent* of a move event; the model takes the parent to be the grid (see "## Left out"). Floats are Dafny `real`s. `TimeSpan` values are integer ticks.

Where the comments and the code disagree, the model follows the code:

- The `SingleThreshold` examples in the doc comment of `GasMixtureBenefitsCondition` (ThrusterComponent.cs:246-252) do not match `HasGasesAboveThreshold` (`GasComparators.ThresholdDocumentedExamples`). A 50/50 target against a 35/65 inlet gets no benefit. A 50/50 target against a 49/51 inlet gets the full benefit.
- `EsThrusterSystem.CanThrusterEnable` refuses every thruster that requires space, whatever its nozzle sees.
- The doc comment of `GetGasMixtureSimilarity` (AtmoshpereSystem.EsHelpers.cs:7-14) promises a score based entirely on percent compositions. The code (lines 21-36) compares mole amounts. A mixture and k times that mixture have the same composition but score 1/k (`GasComparators.SimilarityComparesMoles`).
- The doc comment of `GasConsumptionEfficiency` (ThrusterComponent.cs:121-126) says higher values consume less gas. The code consumes base rate times efficiency (ThrusterSystem.cs:195), so higher values consume more (`ThrusterSystems.HigherEfficiencyConsumesMore`).
- `PreviousValueComparisonTolerance` (ThrusterComponent.cs:154-159) is documented as the smallest change of thrust that gets applied, and `GasBenefitsUpdateInterval` (ThrusterComponent.cs:162-169) as the fastest rate at which the gas benefits are recomputed. Neither field is read in ThrusterSystem.cs or EsThrusterSystem.cs: `OnAtmosUpdateEvent` re-rates the thruster and refreshes its shuttle on every atmospheric update, by any amount. The model carries both fields with their defaults and, like the code, never reads them.

## Model

| member | source | states |
|---|---|---|
| Numeric.Clamp | Content.Server/Shuttles/Systems/ThrusterSystem.cs:170-175 | Math.Clamp with ordered bounds: the result lies within the bounds, equals the value when the value is inside them, and equals the violated bound otherwise |
| GasComparators.GetGasPercentages | Content.Server/Atmos/EntitySystems/AtmoshpereSystem.EsHelpers.cs:42-58 | the loop computes Percentages: each species' moles divided by the mixture's total, all zeros when the total is not positive |
| GasComparators.PercentagesSumToOne | Content.Server/Atmos/EntitySystems/AtmoshpereSystem.EsHelpers.cs:39-58 | the shares of a mixture with moles add up to 1 |
| GasComparators.PercentagesInUnitRange | Content.Server/Atmos/EntitySystems/AtmoshpereSystem.EsHelpers.cs:39-58 | every share lies in [0, 1], and an empty mixture has all shares 0 |
| GasComparators.GetGasMixtureSimilarity | Content.Server/Atmos/EntitySystems/AtmoshpereSystem.EsHelpers.cs:15-37 | the loop computes Similarity: the summed per-species minimum over the larger of the two totals, 0 when either mixture is missing, 1 when both are empty |
| GasComparators.SimilarityInUnitRange | Content.Server/Atmos/EntitySystems/AtmoshpereSystem.EsHelpers.cs:7-15 | the similarity of two mixtures lies between 0 and 1, the range the doc comment gives |
| GasComparators.SimilaritySymmetric | Content.Server/Atmos/EntitySystems/AtmoshpereSystem.EsHelpers.cs:15-37 | comparing a with b gives the same score as comparing b with a |
| GasComparators.SimilarityWithItself | Content.Server/Atmos/EntitySystems/AtmoshpereSystem.EsHelpers.cs:15-37 | a mixture is fully similar (1) to itself, the empty mixture included |
| GasComparators.ScaledPercentages | Content.Server/Atmos/EntitySystems/AtmoshpereSystem.EsHelpers.cs:42-58 | multiplying every mole amount by a positive factor keeps the percentages |
| GasComparators.SimilarityComparesMoles | Content.Server/Atmos/EntitySystems/AtmoshpereSystem.EsHelpers.cs:7-37 | against the doc comment, the score is not a function of the compositions: a mixture with moles and k ≥ 1 times it have equal percentages and score exactly 1/k, below 1 when k > 1 |
| GasComparators.MinOverlapBounds | Content.Server/Atmos/EntitySystems/AtmoshpereSystem.EsHelpers.cs:28-33 | the summed per-species minimum is non-negative and at most either mixture's total |
| GasComparators.HasGasesAboveThreshold | Content.Server/Atmos/EntitySystems/AtmoshpereSystem.EsHelpers.cs:63-76 | the loop answers true exactly when no gas of the target has a share more than the threshold above the inlet's share |
| GasComparators.GetPurityRatio | Content.Server/Atmos/EntitySystems/AtmoshpereSystem.EsHelpers.cs:81-96 | the loop returns 0 when a required gas is absent, and otherwise the clamped minimum inlet/target share ratio |
| GasComparators.PurityRatio | Content.Server/Atmos/EntitySystems/AtmoshpereSystem.EsHelpers.cs:81-96 | the purity ratio always lies in [0, 1] |
| GasComparators.PurityIsMinimumRatio | Content.Server/Atmos/EntitySystems/AtmoshpereSystem.EsHelpers.cs:78-96 | purity is 0 exactly when a required gas is absent; otherwise it is at most every share ratio and equals one of them, or equals 1 |
| GasComparators.FullPurityIffNoShortfall | Content.Server/Atmos/EntitySystems/AtmoshpereSystem.EsHelpers.cs:63-96 | purity 1 exactly when the threshold test passes with threshold 0 |
| GasComparators.PurityOfMatchingComposition | Content.Server/Atmos/EntitySystems/AtmoshpereSystem.EsHelpers.cs:81-96 | an inlet with the target's composition is fully pure |
| GasComparators.PurityOfEmptyTarget | Content.Server/Atmos/EntitySystems/AtmoshpereSystem.EsHelpers.cs:81-96 | a target with no gas makes every inlet fully pure |
| GasComparators.HasAnyRequiredGas | Content.Server/Atmos/EntitySystems/AtmoshpereSystem.EsHelpers.cs:101-112 | the loop answers true exactly when some gas of the target has an inlet share above the threshold |
| GasComparators.EmptyTargetOutcomes | Content.Server/Atmos/EntitySystems/AtmoshpereSystem.EsHelpers.cs:63-112 | a target with no gas passes the threshold test and never has a required gas present |
| GasComparators.PurityDocumentedExample | Content.Server/Shuttles/Components/ThrusterComponent.cs:259-261 | the documented example holds: 50/50 target, 25/25 inlet with 50% other gas, purity 0.5 |
| GasComparators.ThresholdDocumentedExamples | Content.Server/Shuttles/Components/ThrusterComponent.cs:246-252 | the documented examples as the code decides them (species oxygen, nitrogen): a 35/65 inlet against a 50/50 target fails, a 49/51 inlet passes |
| Directions.CardinalIndexRoundTrip | Content.Server/Shuttles/Systems/ThrusterSystem.cs:219 | (int)GetCardinalDir()/2 is a bijection between the four cardinal directions and the bucket indices 0..3 |
| Directions.GetFlagIndex | Content.Server/Shuttles/Systems/ThrusterSystem.cs:784-787 | (int)Math.Log2(flag) is negative for DirectionFlag.None and a valid non-negative index otherwise |
| Directions.FlagIndexOfCardinal | Content.Server/Shuttles/Systems/EsThrusterSystem.cs:394-404 | the flag of a cardinal direction maps to that direction's bucket (South 0, East 1, North 2, West 3) |
| Directions.FlagIndexOfDeclaredFlags | Content.Server/Shuttles/Systems/ThrusterSystem.cs:784-787 | every declared flag other than None maps into 0..3, and a composite flag maps to its highest bit |
| Directions.EnableDisableBits | Content.Server/Shuttles/Systems/ThrusterSystem.cs:694-739 | `|= flag` sets exactly the flag's bits and `&= ~flag` clears exactly them; the other bits are kept |
| Directions.ToggleIdempotent | Content.Server/Shuttles/Systems/ThrusterSystem.cs:694-739 | enabling or disabling a flag twice is doing it once |
| Directions.ToggleInverse | Content.Server/Shuttles/Systems/ThrusterSystem.cs:694-739 | disabling undoes enabling a clear flag, and enabling undoes disabling a set one |
| Directions.TogglesKeepDirectionBits | Content.Server/Shuttles/Systems/ThrusterSystem.cs:694-739 | the toggles never set a bit outside the four direction bits |
| Directions.SweepStep | Content.Server/Shuttles/Systems/ThrusterSystem.cs:741-749 | disabling flag k of Enum.GetValues clears the bits of the flags swept so far, and adds the flag's index to the swept set when any of its bits was still set |
| Directions.SweepComplete | Content.Server/Shuttles/Systems/ThrusterSystem.cs:741-749 | after all declared flags the mask is None, as the closing debug assertion demands, and every set bit has been visited |
| Burning.TickEffect | Content.Server/Shuttles/Systems/ThrusterSystem.cs:651-673 | a thruster that is not due is untouched and damages nothing; a due one moves NextFire on by one cooldown; it damages something iff it is firing, has damage and has contacts, and then it damages the whole list |
| Burning.RunAdvancesPerDueUpdate | Content.Server/Shuttles/Systems/ThrusterSystem.cs:651-673 | over any series of updates NextFire advances by exactly one cooldown per due update, and nothing else changes |
| Burning.DueUpdatesAreRateLimited | Content.Server/Shuttles/Components/ThrusterComponent.cs:54-64 | damage is dealt at most once per cooldown: n due updates up to time T need NextFire + (n-1)·cooldown ≤ T |
| Burning.CatchUpAfterPause | Content.Server/Shuttles/Systems/ThrusterSystem.cs:651-673 | NextFire 0, cooldown 2 s, three updates at 10 s: all three are due and NextFire ends at 6 s, one cooldown per update, so after a pause the burn fires on consecutive updates until it has caught up |
| Burning.RemoveFirst | Content.Server/Shuttles/Systems/ThrusterSystem.cs:683-689 | List.Remove drops the first occurrence when present, keeping the order of everything before and after it (one entry fewer, the multiset minus one copy), and changes nothing otherwise |
| Burning.EndCollideUndoesStartCollide | Content.Server/Shuttles/Systems/ThrusterSystem.cs:675-689 | ending a contact undoes starting it: the contact list has the same multiset of entries, and is the same list when the entity was not in it; contacts with other fixtures are ignored |
| Burning.RemoveAppended | Content.Server/Shuttles/Systems/ThrusterSystem.cs:675-689 | removing an entity that was just appended to a list not holding it gives the list back |
| Burning.StartCollideCounts | Content.Server/Shuttles/Systems/ThrusterSystem.cs:675-681 | each contact with the burn fixture adds one occurrence of the other entity |
| ThrusterData.DefaultThrusterFields | Content.Server/Shuttles/Components/ThrusterComponent.cs:14-175 | the declared defaults: enabled, off, thrust 100 and linear, with inverted efficiency bounds and a PreviousThrust (0) that is not the thrust |
| ThrusterData.DefaultRuleFields | Content.Server/Shuttles/Components/ThrusterComponent.cs:192-230 | the default rule is fuel with factors 1, condition None and an empty mixture |
| ShuttleThrust.AddContributionEffect | Content.Server/Shuttles/Systems/ThrusterSystem.cs:470-496 | enabling adds the thruster to exactly one bucket, raises that total by its thrust and leaves every other bucket alone |
| ShuttleThrust.RemoveUndoesAdd | Content.Server/Shuttles/Systems/ThrusterSystem.cs:566-583 | disabling undoes enabling for a thruster that was not a member |
| ShuttleThrust.AddUndoesRemove | Content.Server/Shuttles/Systems/ThrusterSystem.cs:470-496 | enabling undoes disabling for a thruster that was a member |
| ShuttleThrust.MoveKeepsLinearTotal | Content.Server/Shuttles/Systems/ThrusterSystem.cs:385-400 | a rotation moves thrust between linear buckets without changing their sum |
| ShuttleThrust.AddKeepsBucketsMatch | Content.Server/Shuttles/Systems/ThrusterSystem.cs:470-496 | adding a non-member with its thrust keeps every total equal to its members' sum |
| ShuttleThrust.RemoveKeepsBucketsMatch | Content.Server/Shuttles/Systems/ThrusterSystem.cs:566-583 | removing a member with its thrust keeps every total equal to its members' sum |
| ShuttleThrust.DeltaKeepsBucketsMatch | Content.Server/Shuttles/Systems/ThrusterSystem.cs:218-233 | a member whose thrust changes keeps the totals matching when its one bucket moves by the difference |
| ShuttleThrust.UncountedChangeKeepsBucketsMatch | Content.Server/Shuttles/Systems/ThrusterSystem.cs:105-180 | the thrust of a thruster in no bucket may change without disturbing any total |
| ShuttleThrust.RefreshKeepsBucketsMatchIff | Content.Server/Shuttles/Systems/ThrusterSystem.cs:218-233 | moving a bucket by new minus previous thrust keeps the totals matching iff a member was counted with `previous`, or a non-member's thrust does not change |
| ShuttleThrust.LinearMembersAdd | Content.Server/Shuttles/Systems/ThrusterSystem.cs:741-749 | the members of the buckets of a set of indices grow by one bucket per added index |
| Performance.EvaluateGasMixtures | Content.Server/Shuttles/Systems/ThrusterSystem.cs:113-167 | the loop over the rules computes the fold of efficiency, multiplier and fueled flag |
| Performance.RateRule | Content.Server/Shuttles/Systems/ThrusterSystem.cs:122-164 | the switch on the benefits condition computes the rule's benefit, with unknown conditions taking the Pure branch |
| Performance.BenefitInUnitRange | Content.Server/Shuttles/Systems/ThrusterSystem.cs:122-164 | a benefit lies in [0, 1], and None and SingleThreshold give only 0 or 1 |
| Performance.FueledIff | Content.Server/Shuttles/Systems/ThrusterSystem.cs:115-164 | the thruster is fueled iff it does not require fuel or some fuel rule has a positive benefit |
| Performance.ZeroBenefitZeroesProducts | Content.Server/Shuttles/Systems/ThrusterSystem.cs:166-167 | one rule with zero benefit zeroes both products |
| Performance.FullBenefitProducts | Content.Server/Shuttles/Systems/ThrusterSystem.cs:166-167 | when every rule has full benefit the products are the products of the rules' factors |
| Performance.DefaultRuleNeverBenefits | Content.Server/Shuttles/Components/ThrusterComponent.cs:175 | the default rule's empty mixture never gives a benefit, so a thruster with only that rule rates 0 |
| Performance.Evaluated | Content.Server/Shuttles/Systems/ThrusterSystem.cs:170-178 | after clamping, efficiency and multiplier are within their bounds, thrust is base thrust times multiplier, and no other field changes |
| Performance.EvaluatedThrustBounds | Content.Server/Shuttles/Systems/ThrusterSystem.cs:170-178 | the thrust lies between base·min and base·max multiplier |
| Performance.SingleRuleMultiplierExample | Content.Server/Shuttles/Components/ThrusterComponent.cs:200-206 | the documented example: a multiplier of 1.5 at full benefit raises thrust by 50% |
| Performance.DefaultBoundsInverted | Content.Server/Shuttles/Components/ThrusterComponent.cs:136-152 | the default minimum efficiency (5) exceeds the default maximum (0.1) |
| Performance.CorrectedDefaultsEvaluateWithinBounds | Content.Server/Shuttles/Components/ThrusterComponent.cs:130-152 | with the efficiency bounds swapped, clamping always succeeds and yields efficiency and multiplier in [0.1, 5] and thrust in [10, 500] |
| Performance.CorrectedDefaultRating | Content.Server/Shuttles/Systems/ThrusterSystem.cs:113-178 | a corrected default thruster rates to the minimum thrust 10 and efficiency 0.1 on any inlet |
| Bookkeeping.AgreementGivesAssertions | Content.Server/Shuttles/Systems/ThrusterSystem.cs:474-475 | on a consistent system, the debug assertions of EnableThruster and DisableThruster hold |
| Bookkeeping.SameCountingKeepsConsistency | Content.Server/Shuttles/Systems/ThrusterSystem.cs:105-204 | changing fields that do not count for the buckets keeps a consistent system consistent |
| Bookkeeping.EnrolKeepsConsistency | Content.Server/Shuttles/Systems/ThrusterSystem.cs:455-510 | switching a thruster on and adding it to its shuttle bucket keeps membership and totals consistent |
| Bookkeeping.WithdrawKeepsConsistency | Content.Server/Shuttles/Systems/ThrusterSystem.cs:552-605 | switching a thruster off and removing it from its bucket keeps membership and totals consistent |
| Bookkeeping.MoveKeepsConsistency | Content.Server/Shuttles/Systems/ThrusterSystem.cs:369-400 | moving a counted thruster from its old bucket to its new one keeps the system consistent |
| Bookkeeping.TurnInPlaceKeepsConsistency | Content.Server/Shuttles/Systems/ThrusterSystem.cs:369-385 | turning an angular thruster on the same grid needs no bucket change |
| Bookkeeping.MoveOffShuttleLeavesStaleMember | Content.Server/Shuttles/Systems/ThrusterSystem.cs:342-347 | a thruster that is on and counted at its old shuttle grid, moved onto a grid without a shuttle, is still a member of its old bucket, so the early return leaves the bookkeeping inconsistent |
| Bookkeeping.MaskChangeKeepsConsistency | Content.Server/Shuttles/Systems/ThrusterSystem.cs:694-749 | changing a shuttle's direction mask keeps the system consistent |
| Bookkeeping.CountedRefreshKeepsConsistency | Content.Server/Shuttles/Systems/ThrusterSystem.cs:209-233 | the corrected refresh keeps a consistent system consistent for every change of thrust |
| Bookkeeping.AsWrittenRefreshKeepsConsistency | Content.Server/Shuttles/Systems/ThrusterSystem.cs:209-233 | the refresh as written keeps consistency when a counted thruster's PreviousThrust is its counted thrust, or an uncounted one's thrust stays at PreviousThrust |
| Bookkeeping.AsWrittenMatchesCounted | Content.Server/Shuttles/Systems/ThrusterSystem.cs:209-233 | under the refresh condition the refresh as written changes the shuttles exactly as the corrected refresh does |
| Bookkeeping.AsWrittenRefreshBreaksConsistency | Content.Server/Shuttles/Systems/ThrusterSystem.cs:209-233 | on a shuttle grid, under any other condition, the refresh as written breaks the totals, which makes the previous row an if-and-only-if |
| ThrusterSystems.CanEnableConditions | Content.Server/Shuttles/Systems/ThrusterSystem.cs:607-647 | CanEnable is true only when the thruster is enabled. A fueled thruster needs only IsAllowedActive. Any other thruster needs to be running, anchored and powered, and, when it requires space, a nozzle off-grid or over space |
| ThrusterSystems.FueledThrusterSkipsGuards | Content.Server/Shuttles/Systems/ThrusterSystem.cs:613-620 | a fueled thruster's guard ignores lifecycle, anchoring, power and nozzle |
| ThrusterSystems.SetFiringUnion | Content.Server/Shuttles/Systems/ThrusterSystem.cs:694-780 | setting Firing on two sets in turn equals setting it on their union |
| ThrusterSystems.SetFiringKeepsConsistency | Content.Server/Shuttles/Systems/ThrusterSystem.cs:694-780 | the firing toggles never disturb the bookkeeping |
| ThrusterSystems.FuelApplied | Content.Server/Shuttles/Systems/ThrusterSystem.cs:183-203 | when fueled, the thruster is allowed to be active and is on iff it was on or CanEnable admits it; when not fueled, it is not allowed and is off; thrust, efficiency and firing are kept |
| ThrusterSystems.UpdateEffect | Content.Server/Shuttles/Systems/ThrusterSystem.cs:651-673 | per thruster, the update only advances a due NextFire and damages the whole contact list exactly when it is due, firing, has damage and has contacts |
| ThrusterSystems.UpdateKeepsConsistency | Content.Server/Shuttles/Systems/ThrusterSystem.cs:651-673 | the damage tick never disturbs the bookkeeping |
| ThrusterSystems.SweepFinished | Content.Server/Shuttles/Systems/ThrusterSystem.cs:741-749 | after the sweep the mask is None, exactly the members of the set bits' buckets stopped firing, and consistency is kept |
| ThrusterSystems.ThrusterSystem.EnableThruster | Content.Server/Shuttles/Systems/ThrusterSystem.cs:455-510 | a thruster that is already on is untouched. Otherwise it is switched on and joins the bucket it faces when its grid has a shuttle. The debug assertion holds, and consistency is kept |
| ThrusterSystems.ThrusterSystem.DisableThrusterAt | Content.Server/Shuttles/Systems/ThrusterSystem.cs:552-605 | a thruster that is on is switched off, and leaves the bucket of the given grid and angle when that grid has a shuttle; Colliding is cleared only then |
| ThrusterSystems.ThrusterSystem.DisableThruster | Content.Server/Shuttles/Systems/ThrusterSystem.cs:543-605 | disabling at the thruster's own grid and rotation: the debug assertion holds and consistency is kept |
| ThrusterSystems.ThrusterSystem.RefreshThrusterContribution | Content.Server/Shuttles/Systems/ThrusterSystem.cs:209-233 | as written: on a shuttle grid the bucket it faces moves by Thrust − PreviousThrust, member or not; nothing else changes |
| ThrusterSystems.ThrusterSystem.RefreshCountedContribution | Content.Server/Shuttles/Systems/ThrusterSystem.cs:209-233 | corrected: the thrust and PreviousThrust are set, only a counted thruster moves its bucket by the change, and consistency is always kept |
| ThrusterSystems.ThrusterSystem.RefreshAndCatchUp | Content.Server/Shuttles/Systems/ThrusterSystem.cs:178-180 | the refresh as written followed by PreviousThrust = Thrust; the system stays consistent when the refresh condition held before the thrust changed |
| ThrusterSystems.ThrusterSystem.ApplyRating | Content.Server/Shuttles/Systems/ThrusterSystem.cs:170-178 | inverted efficiency bounds throw before any store, and inverted multiplier bounds throw after the efficiency is stored; otherwise the thruster is evaluated |
| ThrusterSystems.ThrusterSystem.RateOnInlet | Content.Server/Shuttles/Systems/ThrusterSystem.cs:113-180 | rates the rules, clamps, sets thrust, refreshes as written and catches PreviousThrust up; consistency is kept when the refresh condition holds |
| ThrusterSystems.HigherEfficiencyConsumesMore | Content.Server/Shuttles/Systems/ThrusterSystem.cs:195 | at a positive base rate, a strictly higher efficiency consumes strictly more gas, against the field's documentation |
| ThrusterSystems.ThrusterSystem.ApplyFuelState | Content.Server/Shuttles/Systems/ThrusterSystem.cs:183-203 | the full new state: when fueled, the thruster is allowed to run, is enabled if CanEnable admits it and, while firing, requests base rate × efficiency from the inlet; otherwise it is disallowed, disabled and requests nothing. Consistency is kept |
| ThrusterSystems.ThrusterSystem.OnAtmosUpdateEvent | Content.Server/Shuttles/Systems/ThrusterSystem.cs:105-204 | the full new state on every path. No inlet: nothing changes. Inverted bounds: it throws, the shuttles are unchanged, and only this thruster's efficiency may have been clamped and stored. Otherwise only this thruster changes: it is rated, caught up and given its fuel state, and the shuttles are refreshed as written and then enrolled or withdrawn by the fuel step. The thrust is within bounds, the thruster is on according to fuel and CanEnable, gas is requested only while fueled and firing, and consistency is kept under the refresh condition |
| ThrusterSystems.ThrusterSystem.MoveContribution | Content.Server/Shuttles/Systems/ThrusterSystem.cs:369-400 | a parent change to a grid without a shuttle component throws; an angular thruster on the same grid stays; otherwise the thruster leaves its old bucket and joins its new one |
| ThrusterSystems.ThrusterSystem.OnRotate | Content.Server/Shuttles/Systems/ThrusterSystem.cs:337-401 | the handler's five outcomes: ignored, enabled, disabled at the old position, moved, or thrown, each with the full new state. Consistency is kept from a consistent pre-move state only when a thruster that was on is enabled and both its old and its new grid have a shuttle; otherwise the source can leave it counted in a stale bucket (Bookkeeping.MoveOffShuttleLeavesStaleMember) |
| ThrusterSystems.ThrusterSystem.OnActivateThruster | Content.Server/Shuttles/Systems/ThrusterSystem.cs:315-332 | handled events, non-complex interactions and fueled thrusters are ignored; otherwise Enabled flips and the thruster is disabled, or enabled when CanEnable admits it, with Handled set accordingly and consistency kept |
| ThrusterSystems.ThrusterSystem.Update | Content.Server/Shuttles/Systems/ThrusterSystem.cs:651-673 | the loop advances every due thruster's NextFire, returns the entities each one damages, and keeps consistency |
| ThrusterSystems.ThrusterSystem.OnStartCollide | Content.Server/Shuttles/Systems/ThrusterSystem.cs:675-681 | a contact with the burn fixture is appended to Colliding |
| ThrusterSystems.ThrusterSystem.OnEndCollide | Content.Server/Shuttles/Systems/ThrusterSystem.cs:683-689 | the end of a contact with the burn fixture removes one entry |
| ThrusterSystems.ThrusterSystem.FireMembers | Content.Server/Shuttles/Systems/ThrusterSystem.cs:706-716 | the loop sets Firing on every listed entity that has a thruster component and skips the others |
| ThrusterSystems.ThrusterSystem.EnableLinearThrustDirection | Content.Server/Shuttles/Systems/ThrusterSystem.cs:694-717 | a flag with a bit already set does nothing; None throws; otherwise its bits are set and the bucket of its highest bit fires |
| ThrusterSystems.ThrusterSystem.DisableLinearThrustDirection | Content.Server/Shuttles/Systems/ThrusterSystem.cs:719-739 | a flag with no bit set does nothing; otherwise its bits are cleared and the bucket of its highest bit stops firing |
| ThrusterSystems.ThrusterSystem.DisableLinearThrusters | Content.Server/Shuttles/Systems/ThrusterSystem.cs:741-749 | the mask ends None, and exactly the members of the buckets whose bits were set stop firing |
| ThrusterSystems.ThrusterSystem.SetAngularThrust | Content.Server/Shuttles/Systems/ThrusterSystem.cs:751-780 | every angular member with a thruster component starts or stops firing; nothing else changes |
| EsThrusterSystems.CanThrusterEnable | Content.Server/Shuttles/Systems/EsThrusterSystem.cs:168-201 | true iff enabled, not past Running, anchored when the transform resolves, powered when power is required, and space not required |
| EsThrusterSystems.GuardsCompared | Content.Server/Shuttles/Systems/EsThrusterSystem.cs:168-201 | for a non-fueled thruster that needs no space and whose refactored copy requires power, both guards agree; when space is required and the nozzle is exposed, the refactored guard refuses while the original admits an enabled, running, anchored, powered thruster; an unpowered thruster that does not require power passes the refactored guard and never the original |
| EsThrusterSystems.IsNozzleExposed | Content.Server/Shuttles/Systems/EsThrusterSystem.cs:207-243 | an unresolved transform is not exposed; otherwise it agrees with the original NozzleExposed |
| EsThrusterSystems.ContributionNeedsMembership | Content.Server/Shuttles/Systems/EsThrusterSystem.cs:115-134 | moving the bucket by a change of thrust keeps the totals matching iff the debug assertion (membership) holds or the thrust does not change |
| EsThrusterSystems.ContributionRoundTrip | Content.Server/Shuttles/Systems/EsThrusterSystem.cs:106-134 | a delta followed by its negation restores the shuttle |
| EsThrusterSystems.EsSetFiringEffect | Content.Server/Shuttles/Systems/EsThrusterSystem.cs:383-392 | the firing toggle sets Firing on exactly the listed thrusters, touches nothing else, and is idempotent |
| EsThrusterSystems.EsUpdateEffect | Content.Server/Shuttles/Systems/EsThrusterSystem.cs:270-292 | per thruster the update advances a due NextFire by DamageCooldown, and damages the whole contact list iff it is due, firing, has damage and has contacts |
| EsThrusterSystems.EsSweepFinished | Content.Server/Shuttles/Systems/EsThrusterSystem.cs:341-349 | after the sweep the mask is None and exactly the members of the set bits' buckets stopped firing |
| EsThrusterSystems.EsThrusterSystem.TryEnableThruster | Content.Server/Shuttles/Systems/EsThrusterSystem.cs:87-103 | true iff the thruster is on or its transform resolves to a grid with a shuttle; nothing is switched on |
| EsThrusterSystems.EsThrusterSystem.ModifyThrustContribution | Content.Server/Shuttles/Systems/EsThrusterSystem.cs:115-134 | a declared type moves the bucket it selects by the delta and reports the debug assertion; an undeclared type throws and changes nothing |
| EsThrusterSystems.EsThrusterSystem.OnStartCollide | Content.Server/Shuttles/Systems/EsThrusterSystem.cs:248-254 | a contact with the burn fixture is appended to Colliding |
| EsThrusterSystems.EsThrusterSystem.OnEndCollide | Content.Server/Shuttles/Systems/EsThrusterSystem.cs:259-265 | the end of a contact with the burn fixture removes one entry |
| EsThrusterSystems.EsThrusterSystem.Update | Content.Server/Shuttles/Systems/EsThrusterSystem.cs:270-292 | the loop advances every due thruster's NextFire by DamageCooldown and returns the entities each one damages |
| EsThrusterSystems.EsThrusterSystem.SetThrusterFiringState | Content.Server/Shuttles/Systems/EsThrusterSystem.cs:383-392 | Firing becomes the given state and nothing else changes |
| EsThrusterSystems.EsThrusterSystem.FireMembers | Content.Server/Shuttles/Systems/EsThrusterSystem.cs:307-314 | the loop sets Firing on every listed entity that has a thruster component and skips the others |
| EsThrusterSystems.EsThrusterSystem.EnableLinearThrustDirection | Content.Server/Shuttles/Systems/EsThrusterSystem.cs:297-315 | a flag with a bit already set does nothing; None throws after the unchanged mask is stored; otherwise its bits are set and the bucket of its highest bit fires |
| EsThrusterSystems.EsThrusterSystem.DisableLinearThrustDirection | Content.Server/Shuttles/Systems/EsThrusterSystem.cs:320-336 | a flag with no bit set does nothing; otherwise its bits are cleared and the bucket of its highest bit stops firing |
| EsThrusterSystems.EsThrusterSystem.DisableLinearThrusters | Content.Server/Shuttles/Systems/EsThrusterSystem.cs:341-349 | the mask ends None, and exactly the members of the buckets whose bits were set stop firing |
| EsThrusterSystems.EsThrusterSystem.SetAngularThrust | Content.Server/Shuttles/Systems/EsThrusterSystem.cs:356-378 | every angular member with a thruster component starts or stops firing |

## Left out

- Center of thrust (`RefreshCenter`, `RefreshShuttleCenterOfThrust`): vector arithmetic over positions that no other part of the core reads.
- Appearance data, point lights, ambient sound, the burn fixture's polygon, and `SetThrusterFiringState`'s appearance update: presentation only.
- Damage: `TryChangeDamage` is outside the core. The update returns the entities each thruster damages instead.
- Gas removal from the inlet: the amount requested from `GasMixture.Remove` is returned, because `GasMixture.Remove` is outside the core. `Remove` takes at most what the inlet holds, so the amount actually removed can be smaller.
- Single-precision floats: the model uses exact reals, so rounding in products and clamps is not modelled.
- `OnShuttleTileChange`, `OnThrusterExamine`, `OnIsHotEvent`, `OnMapInit`, `OnThrusterShutdown`, `OnThrusterInit`, `OnAnchorChange` and `OnPowerChange`: these handlers are thin combinations of CanEnable, EnableThruster and DisableThruster, or they do tile lookups and examine text. They are not modelled.
- EsThrusterSystem's `OnMapInit` and `OnThrusterInit`, and ESMultistationSystem: these set up components and are not part of the core.
- EsThrusterComponent.cs is not part of this model. Its fields are inferred from their use in EsThrusterSystem.cs.
- Failed `Resolve` of a transform in ThrusterSystem: every thruster is assumed to have a transform entry, as the handlers require.
- ThrusterSystems.ThrusterSystem.EnableLinearThrustDirection: requires the flag to be one of the declared DirectionFlag values. A value outside the enum cannot reach the handler through Enum.GetValues or the callers.
- ThrusterSystems.ThrusterSystem.DisableLinearThrustDirection: requires the flag to be one of the declared DirectionFlag values, for the same reason.
- EsThrusterSystems.EsThrusterSystem.EnableLinearThrustDirection: requires the flag to be one of the declared DirectionFlag values, for the same reason.
- EsThrusterSystems.EsThrusterSystem.DisableLinearThrustDirection: requires the flag to be one of the declared DirectionFlag values, for the same reason.
- ThrusterSystems.ThrusterSystem.OnAtmosUpdateEvent: keeps the refresh as written, so consistency is only promised under the refresh condition. The new state itself is given on every path. The corrected refresh is RefreshCountedContribution (see Findings).
- ThrusterSystems.ThrusterSystem.OnRotate: the source passes the old parent, `args.OldPosition.EntityId`, to DisableThruster as the grid (ThrusterSystem.cs:365), and it tests `args.ParentChanged` and looks up the old parent's shuttle (lines 373-375). The model uses the old grid in both places and tests for a change of grid. The two agree for anchored thrusters, whose parent is the grid. They differ when the parent is an entity on the grid: a thruster re-parented from such an entity P on grid G to G itself throws at line 375 in the source, because P has no shuttle component, while the model moves it within G's buckets and completes.
- ThrusterSystems.ThrusterSystem.MoveContribution: takes the old parent to be the old grid, as for OnRotate above.
- ThrusterSystems.ThrusterSystem.OnRotate: consistency is not promised when a thruster that is on moves onto a grid without a shuttle, or when it was not counted before the move. The source returns at lines 342-347 in the first case, and the old shuttle still counts the thruster (Bookkeeping.MoveOffShuttleLeavesStaleMember). The model follows the source here.
- Threads and event ordering: every handler runs to completion on its own.
- EsThrusterSystems.EsThrusterSystem.SetThrusterFiringState: the `_appearanceQuery` field (EsThrusterSystem.cs:44) is never assigned in EsThrusterSystem.cs, whose `Initialize` (lines 46-58) sets the other three queries only. The model assumes another part of the partial class assigns it, so the appearance lookup at line 390 succeeds. Otherwise the call would plausibly throw right after `Firing` is stored. Each caller (FireMembers, the two direction toggles, DisableLinearThrusters, SetAngularThrust) would then stop after its first thruster, and the model does not capture that.
- EsThrusterSystems.EsThrusterSystem.Update: damage is dealt by iterating `Colliding` directly (EsThrusterSystem.cs:287), where ThrusterSystem iterates a copy (`ToArray()`, ThrusterSystem.cs:668). If a damage reaction ended a contact during the loop, the refactored loop would throw for a modified collection. The model does not capture this, because damage reactions are outside the core and both loops return the whole contact list.

## Findings

| source | as written | input that shows it | evidently intended | confidence | as-written member | corrected member |
|---|---|---|---|---|---|---|
| Content.Server/Shuttles/Components/ThrusterComponent.cs:136-152 | MaxGasConsumptionEfficiency = 0.1 and MinGasConsumptionEfficiency = 5 | any thruster with default bounds reaching the clamp in OnAtmosUpdateEvent: Math.Clamp(x, 5, 0.1) throws ArgumentException | the two efficiency defaults swapped (min 0.1, max 5); whichever sense of efficiency the comment at lines 121-126 has in mind, Math.Clamp needs min ≤ max | not executed | Performance.DefaultBoundsInverted | Performance.CorrectedDefaultsEvaluateWithinBounds |
| Content.Server/Shuttles/Systems/ThrusterSystem.cs:209-233 | the shuttle bucket moves by Thrust − PreviousThrust whether or not the shuttle counts the thruster | a freshly created fueled thruster on a shuttle grid with ordered efficiency bounds (the declared defaults throw first, see the row above): it is off with PreviousThrust 0, and the first atmospheric update rates a thrust T > 0. The refresh moves its bucket by T with no member behind it, and enabling it then adds T again | only a thruster that is counted moves its bucket, by the change from the thrust it was counted with | not executed | Bookkeeping.AsWrittenRefreshBreaksConsistency | ThrusterSystems.ThrusterSystem.RefreshCountedContribution |
