# Ant colony simulation: the model

A Dafny model of the core of an ant-colony simulator. The simulator is a browser app. Its
world is a flat terrain holding one colony, its ants, food and water resources, and the
pheromone deposits the ants leave. An animation loop advances the world once per frame.

The model covers the following.

- **Behaviour helpers** (`client/src/utils/antBehaviors.ts`):
  - the vector helpers and the strongest-deposit search;
  - movement toward a target;
  - the per-ant state machine: IDLE, EXPLORING, GATHERING, RETURNING, then aging, hunger and
    death;
  - laying a deposit;
  - offspring creation.
- **The simulation hook** (`client/src/hooks/useSimulation.ts`):
  - the initial colony, ants and resources;
  - the fresh and reset worlds;
  - the tick. Every ant runs its state machine against the previous snapshot and then moves.
    Old deposits decay and are pruned, and the moved ants lay new ones. Gatherers deplete
    resources. Ants that deliver food credit their colony and are unloaded;
  - runs of ticks.

Some inputs from outside the program become explicit parameters:
- every `Math.random()` draw;
- the wall-clock reading `Date.now()`;
- the frame's simulated delta;
- the pause flag;
- `Math.sqrt`, as a function parameter about which nothing is assumed.

Proved over any such inputs:
- A world invariant. Food levels stay within bounds. Ant ids and colony ids stay distinct.
  No resource goes negative. Every deposit has a strength in (0, 1.5] and a timestamp no
  later than the last clock reading (one reading per tick, see "Left out"). The invariant
  holds in the fresh world and is kept by every tick and every run with a clock that never
  goes back.
- A frame advances the time by the elapsed frame time times the speed, and moves each ant
  by that same simulated delta.
- Resources never gain and colonies never lose along a run, and colonies never move.
- Exact bookkeeping for colony credits and unloading.
- Pruning and emission results, kept in order and by position.
- The strongest-deposit search returns the unique best candidate.
- Dead ants stay dead.
- Aging kills an ant.
- Offspring genes stay within 10% of the parent's.

Modules, one per file:
- `Wrappers`: Option.
- `Numeric`: Min, Max, and draws in [0, 1).
- `AntTypes`: the records of `antTypes.ts`.
- `Seqs`: search, count and filter-map over sequences.
- `Geometry`
- `Scent`: `findStrongestPheromone`, `leavePheromone`.
- `Behaviour`: `updateAntPosition`, `updateAntState`.
- `Offspring`
- `PheromoneField`: the deposit part of the tick.
- `Ledger`: the resource part.
- `Economy`: the colony part.
- `Invariants`
- `Simulation`: tick and runs.
- `Setup`: initial world and reset.

In these places the model follows the code as written:
- A surviving deposit's strength is scaled each tick by `1 - age / 30`, applied to the
  already-decayed strength. Decay therefore compounds, and is not a single fade measured
  from creation. `PheromoneField.DecayCompounds` shows, for any deposit and any two
  readings, that the second decay multiplies both factors and leaves less than a single
  decay at the later age.
- A food trail laid by a carrying ant has strength 1.5 (1.0 × 1.5), and a home trail laid
  by a returning ant has 1.04 (0.8 × 1.3). Neither is the base value.
- A DEAD ant is not exempt from the state update. It falls through to aging: with food
  left it still ages and loses food, and with none it stays DEAD. `updateAntPosition`
  leaves it in place.
- Death by old age leaves age and food level as they were. Only the state changes.
- A GATHERING ant whose colony id matches no colony falls through to aging.

One place departs from the code. A RETURNING ant blends its new target from a home vector
that the source computes with an operator precedence slip (see "Findings"). The model's
blend, `Behaviour.BlendedTarget`, uses the corrected vector `Behaviour.HomeOffset`, and
`Behaviour.BlendedTargetAsWritten` keeps the source's. The two agree whenever the colony
sits at the origin. `Setup.FreshRunsBlendAsWritten` shows that this holds in every world
reached from a fresh or reset one, so on those worlds the model computes what the source
computes.

## Model

| member | source | states |
|---|---|---|
| Numeric.Min | client/src/utils/antBehaviors.ts:232 | `Math.min` is the smaller of its arguments and one of them |
| Numeric.Max | client/src/utils/antBehaviors.ts:293 | `Math.max` is the larger of its arguments and one of them |
| Geometry.Distance | client/src/utils/antBehaviors.ts:4-9 | the distance from a point to itself is the square root of 0 |
| Geometry.DistanceSymmetric | client/src/utils/antBehaviors.ts:4-9 | the distance from a to b is the distance from b to a |
| Geometry.DistanceShift | client/src/utils/antBehaviors.ts:4-9 | moving both points by the same vector leaves their distance unchanged |
| Geometry.Normalize | client/src/utils/antBehaviors.ts:12-16 | the zero vector normalizes to zero; a flat vector stays flat; a component is zero exactly when the input's is, unless the result is zero |
| Geometry.RandomPosition | client/src/utils/antBehaviors.ts:19-25 | a random position is on the ground and, for draws in [0, 1), within `range` of the centre on x and z |
| Geometry.Abs | client/src/hooks/useSimulation.ts:224-226 | `Math.abs` is non-negative and is the value or its negation |
| Seqs.FirstWhere | client/src/hooks/useSimulation.ts:255 | `findIndex`: none exactly when nothing matches; otherwise the first matching index |
| Seqs.Find | client/src/utils/antBehaviors.ts:191 | `find`: none exactly when nothing matches; otherwise the first match |
| Seqs.Filter | client/src/hooks/useSimulation.ts:222-228 | `filter`: as many elements as match, each from the input and matching, and every match kept |
| Seqs.CountWhereAgree | client/src/hooks/useSimulation.ts:222-228 | predicates that agree on every element count the same |
| Seqs.CountWhereDisjoint | client/src/hooks/useSimulation.ts:241-248 | the count of a disjoint union is the sum of the counts |
| Seqs.FilterMap | client/src/hooks/useSimulation.ts:189-217 | `filter` then `map` yields at most one element per input |
| Seqs.Slot | client/src/hooks/useSimulation.ts:189-217 | one input contributes one element when kept and none otherwise |
| Seqs.FilterMapConcat | client/src/hooks/useSimulation.ts:189-217 | filter-map distributes over concatenation |
| Seqs.CountSomeConcat | client/src/hooks/useSimulation.ts:189-217 | the kept count of a concatenation is the sum of the kept counts |
| Seqs.FilterMapAt | client/src/hooks/useSimulation.ts:189-217 | a kept element lands at the index given by the number of kept elements before it |
| Seqs.FilterMapRemoveNone | client/src/hooks/useSimulation.ts:189-217 | removing an element that is not kept leaves the output unchanged |
| Seqs.FilterMapLength | client/src/hooks/useSimulation.ts:189-217 | the output length is the kept count |
| Seqs.FilterMapFrom | client/src/hooks/useSimulation.ts:189-217 | every output element comes from some input |
| Scent.StrongestIsUnique | client/src/utils/antBehaviors.ts:28-52 | at most one index is the strongest candidate |
| Scent.StrongestIndex | client/src/utils/antBehaviors.ts:37-49 | the scan of a prefix finds nothing exactly when no deposit of the prefix qualifies, and otherwise the earliest one with the highest effective strength |
| Scent.ScanStep | client/src/utils/antBehaviors.ts:38-46 | one loop iteration keeps the best so far or takes the current deposit; it takes it only when it is of the kind, above 0.15, within range and scores above the best so far (above 0 when there is none), and always does then |
| Scent.ScanStepKeepsStrongest | client/src/utils/antBehaviors.ts:38-46 | one loop iteration takes the strongest candidate of the shorter prefix to that of the prefix one longer |
| Scent.FindStrongestPheromone | client/src/utils/antBehaviors.ts:28-52 | none exactly when no deposit of the kind, stronger than 0.15, within range and with a positive weighted score exists; otherwise the strongest candidate, earliest on ties, a member of the input of that kind |
| Scent.LeavePheromone | client/src/utils/antBehaviors.ts:308-333 | a deposit at the ant, stamped now; strength ×1.5 for a food trail by a carrying ant, ×1.3 for a home trail by a returning ant, the base otherwise; never below the base or above 1.5 × base |
| Behaviour.Wander | client/src/utils/antBehaviors.ts:98-100 | a new random target around the centre within the wander radius of 10 |
| Behaviour.UpdateAntPosition | client/src/utils/antBehaviors.ts:55-120 | only position and target change; a dead ant is unchanged; an exploring ant without a target gets one around its position; a moving ant stays on the ground; on arrival an exploring ant re-targets and any other keeps its target |
| Behaviour.OwnColony | client/src/utils/antBehaviors.ts:191 | the colony with the ant's id, and none exactly when no colony has it |
| Behaviour.IdleStep | client/src/utils/antBehaviors.ts:135-144 | an idle ant starts exploring toward a random target exactly when the draw is below 0.05 |
| Behaviour.ExploreStep | client/src/utils/antBehaviors.ts:146-188 | sensing a resource turns the ant to GATHERING at the first one sensed; otherwise a food trail, when followed, becomes its target and makes it GATHERING above strength 0.6; otherwise it re-targets exactly when it has reached its target |
| Behaviour.GatherStep | client/src/utils/antBehaviors.ts:190-219 | the step applies exactly when the colony exists and the target is reached; with food at the target the ant returns home carrying; without, it explores again |
| Behaviour.HomeOffset | client/src/utils/antBehaviors.ts:256-260 | the intended home vector: from the ant to the colony, or to the origin without a colony, on the ground |
| Behaviour.HomeOffsetAsWritten | client/src/utils/antBehaviors.ts:256-260 | the source's home vector: a colony's non-zero coordinate itself, and otherwise the vector that brings the ant's coordinate to 0; always on the ground |
| Behaviour.HomeOffsetSlip | client/src/utils/antBehaviors.ts:257-259 | for a colony at x = 10 and an ant at x = 20, the source's home vector points away from home |
| Behaviour.HomeOffsetAtOrigin | client/src/utils/antBehaviors.ts:256-260 | for a colony at the origin the source's home vector and the intended one coincide |
| Behaviour.BlendWith | client/src/utils/antBehaviors.ts:262-273 | the blended target lies on the ground; with a trail at the ant it is 3.5 units along the home direction |
| Behaviour.BlendedTarget | client/src/utils/antBehaviors.ts:256-273 | the model's blend lies on the ground and, for a colony at the origin or none, equals the source's blend |
| Behaviour.BlendedTargetAsWritten | client/src/utils/antBehaviors.ts:256-273 | the source's blend, from its home vector, lies on the ground |
| Behaviour.ReturnStep | client/src/utils/antBehaviors.ts:221-281 | at home the ant unloads, explores again and is fed 40 up to capacity when it carried food; away from home it re-targets exactly when the 0.7 draw passes and a home trail is found, and the target stays on the ground |
| Behaviour.Age | client/src/utils/antBehaviors.ts:287-304 | an ant without food dies; one that would pass its lifespan dies; otherwise it ages by 0.01 and loses 0.005 food, never below 0 |
| Behaviour.DeadStaysDeadAging | client/src/utils/antBehaviors.ts:287-304 | a dead ant stays dead through any number of aging steps |
| Behaviour.DiesOfAge | client/src/utils/antBehaviors.ts:294-298 | n aging steps kill an ant whose age plus 0.01·n passes its lifespan |
| Behaviour.DiesOfHunger | client/src/utils/antBehaviors.ts:288-293 | n aging steps kill an ant with at most 0.005·(n−1) food |
| Behaviour.Transition | client/src/utils/antBehaviors.ts:134-285 | a state-machine step changes only state, target, carrying flag and food, keeps food within bounds, and never enters a reserved state |
| Behaviour.UpdateAntState | client/src/utils/antBehaviors.ts:123-305 | only state fields change; a dead ant stays dead; food stays within bounds; no reserved state is entered; an applicable step is taken, and aging applies otherwise |
| Offspring.Mutate | client/src/utils/antBehaviors.ts:340-346 | a gene is kept unless its draw is below the rate, and otherwise stays within 10% of the parent's |
| Offspring.ScaledWithinTenPercent | client/src/utils/antBehaviors.ts:344 | a factor 0.9 + 0.2·u for a draw u scales a non-negative value by at most 10% |
| Offspring.CreateOffspring | client/src/utils/antBehaviors.ts:336-363 | the child is of the next generation, exploring, empty-handed, at the parent's position, with half its capacity in food; no mutation at a non-positive rate; every gene and the lifespan within 10% of the parent's |
| Offspring.CreateOffspringDefault | client/src/utils/antBehaviors.ts:336-346 | at the default rate 0.1 a gene whose draw is at least 0.1 is the parent's, and every gene stays within 10% |
| PheromoneField.Keep | client/src/hooks/useSimulation.ts:176-186 | a deposit is kept exactly when it is younger than 30 s and stronger than 0.1, and then only its strength changes, to a positive value no larger than before |
| PheromoneField.Decayed | client/src/hooks/useSimulation.ts:179-185 | decay changes only the strength, which stays positive for a survivor and does not grow |
| PheromoneField.Prune | client/src/hooks/useSimulation.ts:176-186 | no more deposits than before, each positive and the decay of a surviving original |
| PheromoneField.PruneExact | client/src/hooks/useSimulation.ts:176-186 | a survivor's decay sits at the index given by the survivors before it |
| PheromoneField.PruneConcat | client/src/hooks/useSimulation.ts:176-186 | pruning distributes over concatenation |
| PheromoneField.DecayCompounds | client/src/hooks/useSimulation.ts:179-185 | for any deposit surviving two readings, the second decay is the product of both factors and below a single decay at the later age |
| PheromoneField.EmitChance | client/src/hooks/useSimulation.ts:189-199 | the emission chance lies in [0.08, 0.3], is 0.3 exactly for a carrying ant, and is above 0.08 exactly for a carrying or returning one |
| PheromoneField.Emission | client/src/hooks/useSimulation.ts:189-217 | a dead ant lays nothing; a live one lays exactly when its draw is below its chance; kind and strength by carrying flag and state |
| PheromoneField.Zip | client/src/hooks/useSimulation.ts:188-217 | pairs each ant with its draw |
| PheromoneField.Emit | client/src/hooks/useSimulation.ts:188-217 | at most one deposit per ant, each stamped now with strength in [0.4, 1.5], each laid by a live ant |
| PheromoneField.EmitExact | client/src/hooks/useSimulation.ts:188-217 | an ant that lays a deposit is live, and its deposit sits after those of the ants before it |
| PheromoneField.ZipRemove | client/src/hooks/useSimulation.ts:188-217 | removing an ant and its draw removes their pair |
| PheromoneField.DeadAntsEmitNothing | client/src/hooks/useSimulation.ts:190 | removing a dead ant does not change the new deposits |
| PheromoneField.NextPheromones | client/src/hooks/useSimulation.ts:174-219 | every next deposit is a decayed survivor or a live ant's emission |
| PheromoneField.NextPheromonesKeep | client/src/hooks/useSimulation.ts:174-186 | survivors keep their order in front |
| PheromoneField.NextPheromonesAppend | client/src/hooks/useSimulation.ts:188-218 | new deposits follow all survivors, in ant order |
| Ledger.Deplete | client/src/hooks/useSimulation.ts:221-238 | only the amount changes; with no gatherers the resource is unchanged; otherwise 0.1 per gatherer is taken, never below 0; the amount never grows and shrinks only with gatherers |
| Ledger.DepleteAll | client/src/hooks/useSimulation.ts:221-238 | each resource is depleted against the moved ants |
| Ledger.GathererCountIgnoresOthers | client/src/hooks/useSimulation.ts:222-228 | ants not GATHERING never count |
| Ledger.GathererCountNone | client/src/hooks/useSimulation.ts:222-228 | with no GATHERING ant the count is 0 |
| Ledger.GathererCountSamePlace | client/src/hooks/useSimulation.ts:222-228 | gatherers count the same against two resources at the same position |
| Ledger.DepletionIsAdditive | client/src/hooks/useSimulation.ts:221-238 | two ticks of depletion are one against both ticks' gatherers: the second tick counts the same gatherers, and the amount is `max(0, amount - 0.1·(n₁ + n₂))` |
| Economy.Unload | client/src/hooks/useSimulation.ts:257-262 | an unloaded ant is empty-handed, exploring, with a new target within 10 of its position |
| Economy.UnloadIdempotent | client/src/hooks/useSimulation.ts:257-262 | unloading twice with the same draw is unloading once |
| Economy.UnloadById | client/src/hooks/useSimulation.ts:255-263 | every ant is itself or its unloading; with distinct ids exactly the ant with that id is unloaded |
| Economy.UnloadEach | client/src/hooks/useSimulation.ts:254-264 | every ant is itself or its unloading |
| Economy.UnloadEachExact | client/src/hooks/useSimulation.ts:254-264 | with distinct ids exactly the listed ants are unloaded |
| Economy.UnloadEachAt | client/src/hooks/useSimulation.ts:254-264 | unloading by a list's head and then its tail unloads the ant exactly when the list holds its id |
| Economy.Deliverers | client/src/hooks/useSimulation.ts:241-248 | one deliverer per delivering ant |
| Economy.CreditColony | client/src/hooks/useSimulation.ts:240-270 | the colony gains one unit per deliverer, and every ant is itself or its unloading |
| Economy.CreditColonyExact | client/src/hooks/useSimulation.ts:240-270 | with distinct ids exactly the deliverers are unloaded |
| Economy.DelivererIds | client/src/hooks/useSimulation.ts:241-256 | with distinct ids, an ant's id is among the deliverers exactly when it delivers |
| Economy.CreditAll | client/src/hooks/useSimulation.ts:240-270 | every colony keeps all but its store, which never shrinks; every ant is itself or its unloading |
| Economy.AfterFirstColony | client/src/hooks/useSimulation.ts:240-270 | after the first colony only its deliverers are unloaded, and the others' deliveries are unchanged |
| Economy.DeliversAfterOther | client/src/hooks/useSimulation.ts:241-248 | unloading for one colony does not change delivery to another |
| Economy.CreditColonyKeepsIds | client/src/hooks/useSimulation.ts:254-264 | crediting keeps every ant's id |
| Economy.LaterColonyCount | client/src/hooks/useSimulation.ts:240-270 | crediting one colony leaves the delivery count of another unchanged |
| Economy.CreditAllCounts | client/src/hooks/useSimulation.ts:240-270 | each colony gains exactly one unit per ant delivering to it in the moved ants |
| Economy.CreditAllCountAt | client/src/hooks/useSimulation.ts:240-270 | the same for one colony index |
| Economy.CreditAllUnloads | client/src/hooks/useSimulation.ts:240-270 | exactly the ants delivering to some colony are unloaded |
| Economy.SameDeliveriesLater | client/src/hooks/useSimulation.ts:240-270 | an ant unloaded by the first colony delivers to no later one |
| Economy.CountAgreeAcross | client/src/hooks/useSimulation.ts:241-248 | sequences agreeing elementwise on a predicate count the same |
| Economy.CreditConserves | client/src/hooks/useSimulation.ts:240-270 | the colonies together gain exactly one unit per ant delivering anywhere: food is neither created nor lost |
| Economy.SplitDeliveries | client/src/hooks/useSimulation.ts:240-270 | deliveries split into those to the first colony and those to the rest |
| Economy.CountNone | client/src/hooks/useSimulation.ts:241-248 | helper: a count under a predicate nothing satisfies is 0, the base case of `Economy.CreditConserves` |
| Simulation.MoveAnt | client/src/hooks/useSimulation.ts:167-170 | a moved ant keeps id, colony, genes, speed, health and generation; food stays within bounds; a dead ant stays dead where it lay; no reserved state is entered |
| Simulation.SourceUpdate | client/src/hooks/useSimulation.ts:167-170 | every application of the source's per-ant update is a sound move and enters no reserved state the ant was not in |
| Simulation.SourceUpdateIsSound | client/src/hooks/useSimulation.ts:167-170 | the source's per-ant update keeps ids, colonies, bounded food and dead ants |
| Simulation.Moved | client/src/hooks/useSimulation.ts:167-170 | one moved ant per ant, each updated against the previous snapshot |
| Simulation.EmitDraws | client/src/hooks/useSimulation.ts:188-198 | each ant's emission draw, in order |
| Simulation.Advance | client/src/hooks/useSimulation.ts:164-279 | only time, ants, deposits, resources and colonies change; time advances by the delta; each ant is its moved self or its unloading; each resource is depleted; no colony loses; the deposits are the next field |
| Simulation.Tick | client/src/hooks/useSimulation.ts:162-280 | a paused tick changes nothing; otherwise it is the advance of the moved ants, each ant its update under the delta or that unloaded; speed, pause flag, predators, terrain, lengths and every colony but its store are kept |
| Simulation.SimulationDelta | client/src/hooks/useSimulation.ts:165 | at speed 1 the delta is the frame time; it is 0 at speed 0 or with no elapsed time, and never negative for non-negative inputs |
| Simulation.Frame | client/src/hooks/useSimulation.ts:162-170 | a paused frame changes nothing; otherwise time advances by the frame time times the speed, not at all at speed 0, and each ant is updated with that delta, possibly unloaded |
| Simulation.TickAnts | client/src/hooks/useSimulation.ts:167-170 | the tick's ant is the source update or its unloading |
| Simulation.TickResources | client/src/hooks/useSimulation.ts:221-238 | the tick's resource is depleted against the moved ants |
| Simulation.MovedKeepsIds | client/src/hooks/useSimulation.ts:167-170 | moving keeps ids, so distinct ids stay distinct |
| Simulation.AdvanceCreditsExact | client/src/hooks/useSimulation.ts:240-270 | a colony gains exactly its deliverers among the moved ants |
| Simulation.AdvanceUnloadsExact | client/src/hooks/useSimulation.ts:254-264 | exactly the moved deliverers are unloaded |
| Simulation.TickCreditsExact | client/src/hooks/useSimulation.ts:240-270 | over a tick, a colony gains exactly its deliverers |
| Simulation.TickUnloadsExact | client/src/hooks/useSimulation.ts:254-264 | over a tick, exactly the deliverers are unloaded |
| Simulation.DeadStaysDead | client/src/hooks/useSimulation.ts:167-170 | a dead ant is still dead, where it lay, after any tick |
| Simulation.MovedKeepsAnts | client/src/hooks/useSimulation.ts:167-170 | moving keeps the ants' invariant |
| Simulation.CreditKeepsAnts | client/src/hooks/useSimulation.ts:240-270 | crediting keeps the ants' invariant |
| Simulation.UnloadingKeepsAnts | client/src/hooks/useSimulation.ts:257-262 | unloading some ants keeps the ants' invariant |
| Simulation.CreditKeepsColonyIds | client/src/hooks/useSimulation.ts:266-269 | crediting keeps colony ids distinct |
| Simulation.DepleteKeepsNonNegative | client/src/hooks/useSimulation.ts:230-234 | depletion keeps every amount non-negative |
| Simulation.NextFieldKeepsInvariant | client/src/hooks/useSimulation.ts:174-219 | the next field's strengths stay in (0, 1.5] and no stamp is later than now |
| Simulation.AdvanceKeepsInvariant | client/src/hooks/useSimulation.ts:164-279 | advancing keeps the world invariant, moved to the new clock reading |
| Simulation.UnpausedTickKeepsInvariant | client/src/hooks/useSimulation.ts:162-280 | a running tick keeps the world invariant |
| Simulation.PausedTickKeepsInvariant | client/src/hooks/useSimulation.ts:162 | a paused tick keeps the world invariant |
| Simulation.TickPreservesInvariant | client/src/hooks/useSimulation.ts:152-284 | every tick keeps the world invariant |
| Simulation.TickStepKeepsInvariant | client/src/hooks/useSimulation.ts:152-284 | the frame step keeps the world invariant |
| Simulation.ClockMonotoneTail | client/src/hooks/useSimulation.ts:172 | the tail of a monotone clock is monotone and ends at the same reading |
| Simulation.RunPreservesInvariant | client/src/hooks/useSimulation.ts:152-284 | any run of invariant-keeping frames keeps the world invariant |
| Simulation.SourceRunPreservesInvariant | client/src/hooks/useSimulation.ts:152-284 | any run of the source's frames keeps the world invariant |
| Simulation.MonotoneTransitive | client/src/hooks/useSimulation.ts:221-270 | resource and colony monotonicity compose |
| Simulation.TickIsMonotone | client/src/hooks/useSimulation.ts:221-270 | a frame never adds to a resource or takes from a colony |
| Simulation.RunIsMonotone | client/src/hooks/useSimulation.ts:221-270 | neither does a run of such frames |
| Simulation.SourceRunIsMonotone | client/src/hooks/useSimulation.ts:152-284 | nor any run of the source's frames |
| Setup.Digit | client/src/hooks/useSimulation.ts:50 | a digit character |
| Setup.Decimal | client/src/hooks/useSimulation.ts:50 | a numeral is a non-empty string of digits, of two or more for 10 and above |
| Setup.DecimalInjective | client/src/hooks/useSimulation.ts:50 | different numbers print differently |
| Setup.PrefixCancels | client/src/hooks/useSimulation.ts:50 | a common prefix cancels |
| Setup.AntIdInjective | client/src/hooks/useSimulation.ts:50 | different indices give different ant ids |
| Setup.CreateInitialColony | client/src/hooks/useSimulation.ts:14-24 | colony-1 at the origin with 200 food, population 20, one queen, 15 workers and 4 soldiers |
| Setup.RoleGenes | client/src/hooks/useSimulation.ts:30-47 | each role's genes fall in that role's ranges for draws in [0, 1) |
| Setup.InitialAnt | client/src/hooks/useSimulation.ts:49-64 | a fresh ant of generation 1, exploring, empty-handed, 80% fed, at full health, within 5 of the colony, aiming within a third of the terrain, living 150 to 250, with the genes of its role |
| Setup.CreateInitialAnts | client/src/hooks/useSimulation.ts:26-68 | `count` ants, or none for a count below 1, ant i built for index i |
| Setup.InitialAntsInvariant | client/src/hooks/useSimulation.ts:26-68 | the initial ants have distinct ids and food within bounds |
| Setup.PerCluster | client/src/hooks/useSimulation.ts:75 | the per-cluster count is the floor of 0.8·count/5 |
| Setup.ClusterResource | client/src/hooks/useSimulation.ts:81-93 | a clustered resource: food above a 0.2 draw, on the terrain, holding 100 to 250 |
| Setup.ScatteredResource | client/src/hooks/useSimulation.ts:98-104 | a scattered resource: food above a 0.3 draw, on the terrain, holding 50 to 100 |
| Setup.ClusteredResources | client/src/hooks/useSimulation.ts:79-95 | five clusters of `per`, cluster by cluster |
| Setup.ScatteredResources | client/src/hooks/useSimulation.ts:98-105 | the scattered rest, in order |
| Setup.CreateInitialResources | client/src/hooks/useSimulation.ts:70-108 | five clusters of floor(0.8·count/5) and the remainder scattered, with no iteration for a bound below 1 |
| Setup.InitialResourcesCount | client/src/hooks/useSimulation.ts:70-108 | for count ≥ 0, exactly count resources, clusters holding at most 80% and short of it by fewer than 5 |
| Setup.ClusteredOnTerrain | client/src/hooks/useSimulation.ts:79-95 | every clustered resource is on the terrain and holds a positive amount |
| Setup.ScatteredOnTerrain | client/src/hooks/useSimulation.ts:98-105 | every scattered resource is on the terrain and holds a positive amount |
| Setup.InitialResourcesOnTerrain | client/src/hooks/useSimulation.ts:70-108 | every initial resource is on the terrain and holds a positive amount |
| Setup.FreshWorld | client/src/hooks/useSimulation.ts:111-124 | time 0, speed 1, one colony with 20 ants, no deposits or predators, terrain seed below 1000 |
| Setup.InitialWorld | client/src/hooks/useSimulation.ts:111-124 | the starting world runs, at time 0 and speed 1, with one colony of 20 ants and no deposits or predators |
| Setup.Reset | client/src/hooks/useSimulation.ts:137-150 | a reset world is paused, at time 0 and speed 1, with one colony of 20 ants and no deposits or predators |
| Setup.ResetIsPausedStart | client/src/hooks/useSimulation.ts:111-150 | with the same draws a reset rebuilds the starting world, paused |
| Setup.FreshWorldInvariant | client/src/hooks/useSimulation.ts:137-150 | a fresh or reset world holds 50 resources and satisfies the world invariant at any clock reading |
| Setup.FreshWorldRoles | client/src/hooks/useSimulation.ts:30-47 | in a fresh world ants 0–14 are workers, 15–18 soldiers and 19 the queen, each with its role's genes |
| Setup.FreshRunsKeepInvariant | client/src/hooks/useSimulation.ts:111-284 | every run of the source's frames from a fresh or reset world keeps the world invariant |
| Setup.FreshRunsColoniesAtOrigin | client/src/hooks/useSimulation.ts:14-24 | in every world reached from a fresh or reset one, every colony is at the origin |
| Setup.FreshRunsBlendAsWritten | client/src/utils/antBehaviors.ts:256-273 | in every such world the model's RETURNING blend equals the source's, precedence slip included |

## Left out

- Rendering, camera and statistics panels (`AntCanvas.tsx`, `ColonyStats.tsx`, `SimulationControls.tsx`, `AntSimulation.tsx`, `Index.tsx`, `App.tsx`) are not part of this model. Neither is the Python prototype (`ant.py`, `simulation.py`, `map.py`, `food.py`, `sprite.py`). None of them holds simulation logic of the core.
- `setSimulationSpeed` and `togglePause` (useSimulation.ts:129-135) are one-line state setters. The pause flag and the speed are inputs here.
- The React plumbing (`requestAnimationFrame`, `useEffect`, the `lastUpdateTimeRef` first-frame skip and the conversion of the timestamp to seconds) is not modelled. A frame's elapsed time in seconds is an input of `Simulation.Frame`, which scales it by the speed.
- The pause check reads the `state` captured when the loop started. The model takes the pause flag of each frame as an input.
- Rotation and `Math.atan2` (antBehaviors.ts:82-86, useSimulation.ts:53) are dropped from `Ant`. No logic of the core reads rotation.
- `Math.sqrt` is a parameter with no properties. Floating-point rounding, NaN and infinities are not modelled. Reals are exact. For `findStrongestPheromone` with range 0, where JavaScript's score is NaN and never wins, the model lets nothing qualify.
- `Math.random()`, `Date.now()` and the generated deposit ids (`Date.now()`-based strings, and the child's id in `createOffspring`) are parameters.
- The reserved states REPRODUCING, FLEEING and FIGHTING, the DANGER trail and predators are declared but never driven by the core. The model keeps them as data and proves that no step enters a reserved state.
- `createOffspring` is modelled, but no tick calls it, as in the source.
- Behaviour.BlendedTarget: equals the source's blend only for a colony at the origin (or none), which `Setup.FreshRunsBlendAsWritten` shows covers every world reached from a fresh one; for a colony elsewhere it uses the corrected home vector, not the source's.
- PheromoneField.Emission: one clock reading `now` per tick stands for every `Date.now()` of that tick, the prune's (useSimulation.ts:172) and each deposit's stamp (antBehaviors.ts:327, 331). In the source a stamp can be a few milliseconds later than the prune's reading. The invariant's "no stamp later than the last reading" rests on this identification; with separate readings it would hold against the latest reading of the tick instead.
- Setup.FreshWorld: the initial ants' positions and targets are bounded through `Setup.InitialAnt`, not restated at world level.

## Findings

| source | as written | input that shows it | evidently intended | confidence | as-written member | corrected member |
|---|---|---|---|---|---|---|
| client/src/utils/antBehaviors.ts:257-259 | `home?.position.x \|\| 0 - ant.position.x` parses as `home.x \|\| (0 - ant.x)`: the home vector is the colony's coordinate, or the ant's negated coordinate when that is 0 | colony at x = 10, ant at x = 20: the vector is +10 (away from home) instead of −10 | `(home?.position.x \|\| 0) - ant.position.x`, the vector from the ant to its colony | high (not executed; follows from operator precedence) | Behaviour.HomeOffsetSlip (on Behaviour.HomeOffsetAsWritten) | Behaviour.HomeOffset |
