# Unciv city population engine in Dafny

This project models the population engine of a city in Unciv
(`core/src/com/unciv/logic/city/PopulationManager.kt`). It keeps four pieces of state:

- the number of citizens (`population`) and the food in store (`foodStored`);
- a counter of specialists per specialist type (`specialistAllocations`);
- the set of map tiles the city's citizens work (`cityInfo.workedTiles`).

Each turn, food makes the city grow or starve. Whenever the population changes, the engine
rebalances the workforce:

- a free citizen goes to the better of the best unworked tile and the best specialist slot
  that still has room;
- when there are more jobs than citizens, workers are evicted one at a time until nobody is
  missing.

Modules:

- `Options`: the usual optional value.
- `Counters`: the string-keyed counter behind the specialist allocations and capacities.
  - Lookup defaults to 0.
  - `add` drops a key whose count reaches 0.
  - Merging adds key by key.
  - Also here: the sum of all counts, the capacity clamp, and the capacity granted by the
    city's buildings.
- `Growth`: the food cost of the next citizen and the outcome of one turn.
  - The term `floor((p-1)^1.8)` is computed exactly, as the largest `r` with `r^5 <= (p-1)^9`.
  - The city-state factor 1.5 and the AI growth modifier are real multipliers.
  - Kotlin's `toInt()` is truncation toward zero.
- `CityContext`: everything the engine reads and never writes. It is gathered in a `World`
  value whose fields are functions, one per collaborator: the city's tiles in order, distance
  to the centre, `providesYield`, ownership, locking, tile food, the two ranking functions,
  the statistics update and every building's specialist grants. Kotlin's `maxByOrNull` is
  `MaxBy`, and it keeps the first of several equal elements.
- `Allocation`: the greedy passes, one iteration at a time, as functions of an `Assignment`
  (worked tiles, specialists, running statistics).
  - `AssignStep`/`AssignRun` are the assignment loop; `EvictStep`/`EvictRun` are the eviction
    loop.
  - `Rebalanced` says what `addPopulation` does to the workforce: an eviction run from the
    cleaned assignment when citizens are missing, an assignment run otherwise.
  - Where the source's choice depends on hash iteration order, a step takes the choice as an
    argument, and a predicate says which choices are legal. This covers equally ranked
    specialist types and equally locked worked tiles.
- `Population`: two classes.
  - `City` holds the city fields the engine writes.
  - `PopulationManager` holds the engine's own fields. Its methods change them in place.
  - Each loop the model covers is a loop here. Its invariants tie the state to the step
    functions, so each method's postcondition states the run it performed and what that run
    guarantees.

Four points where the code is easy to misread:

- **Ties in assignment.** An equal score gives the citizen to the specialist, not the tile,
  because line 148 compares with a strict `>`.
- **No early stop.** The assignment loop always runs once per citizen free at entry. An
  iteration without candidates changes nothing.
- **Eviction order.** The key that picks the worst worked tile is only the lock penalty:
  0 when unlocked, 10 when locked. The `+(...)` on line 185 starts a new statement, so the
  rank on line 184 is discarded. The comparison on line 200 then uses the raw rank without
  the penalty.
- **Empty eviction.** The eviction loop throws at line 202 when there is neither a tile nor a
  specialist to evict. That happens only with manual specialists and more specialists than
  citizens after clamping. The model makes this a precondition, `Rebalanceable`, of the
  methods that can reach the loop.

## Model

| member | source | states |
|---|---|---|
| Counters.Add | core/src/com/unciv/logic/city/PopulationManager.kt:154 | adding `n` to a type changes its count by exactly `n` and no other count; the type leaves the counter exactly when its count becomes 0 |
| Counters.Merge | core/src/com/unciv/logic/city/PopulationManager.kt:33 | merging adds the counts key by key; a key is kept unless its merged count is 0 |
| Counters.TotalRemove | core/src/com/unciv/logic/city/PopulationManager.kt:39 | the specialist sum can be taken one type at a time in any order |
| Counters.TotalAdd | core/src/com/unciv/logic/city/PopulationManager.kt:203 | adding `n` to one type changes the specialist sum by exactly `n`, whether or not the key is dropped |
| Counters.TotalSet | core/src/com/unciv/logic/city/PopulationManager.kt:173 | overwriting one count changes the sum by the difference |
| Counters.TotalNonZeroHasKey | core/src/com/unciv/logic/city/PopulationManager.kt:192-193 | a counter with a non-zero sum has a key, so a worst specialist type exists |
| Counters.Clamp | core/src/com/unciv/logic/city/PopulationManager.kt:171-173 | every type listed in the capacity whose count exceeds it gets the capacity; unlisted types and counts within capacity are unchanged |
| Counters.ClampIdempotent | core/src/com/unciv/logic/city/PopulationManager.kt:171-173 | clamping an already clamped allocation changes nothing |
| Counters.ClampOneMore | core/src/com/unciv/logic/city/PopulationManager.kt:171-173 | clamping type by type: taking one more listed type into the clamp overwrites that type's count with its capacity when it exceeds it, and changes nothing else |
| Counters.ClampRestrictEnds | core/src/com/unciv/logic/city/PopulationManager.kt:171-173 | before any type is visited nothing is clamped; once every listed type is visited the result is the full clamp |
| Counters.CapacityIsSumOfSlots | core/src/com/unciv/logic/city/PopulationManager.kt:208-213 | the capacity of a type is the sum of the slots all built buildings grant for it |
| Counters.CapacityHasNoZeros | core/src/com/unciv/logic/city/PopulationManager.kt:211 | a capacity merged from buildings never lists a type with 0 slots |
| Growth.RootFrom | core/src/com/unciv/logic/city/PopulationManager.kt:48 | the search returns the integer fifth root: `r^5 <= x < (r+1)^5` |
| Growth.FloorPowNineFifths | core/src/com/unciv/logic/city/PopulationManager.kt:48 | the result is `floor(n^1.8)`, the `r` with `r^5 <= n^9 < (r+1)^5` |
| Growth.FloorPowNineFifthsMonotone | core/src/com/unciv/logic/city/PopulationManager.kt:48 | the exponent term never decreases as population grows |
| Growth.FloorPowNineFifthsAtZeroAndOne | core/src/com/unciv/logic/city/PopulationManager.kt:48 | the exponent term is 0 at 0 and 1 at 1 |
| Growth.TruncToInt | core/src/com/unciv/logic/city/PopulationManager.kt:53 | `toInt()` drops the fraction toward zero: within 1 of the input and never farther from 0 |
| Growth.TruncMonotone | core/src/com/unciv/logic/city/PopulationManager.kt:53 | truncation keeps the order of its arguments |
| Growth.PlayerThresholdIsBase | core/src/com/unciv/logic/city/PopulationManager.kt:46-54 | for a human-played major civilization the threshold is `15 + 6(p-1) + floor((p-1)^1.8)`, unscaled |
| Growth.PlayerThresholdAtOneAndTwo | core/src/com/unciv/logic/city/PopulationManager.kt:48 | the threshold is 15 at population 1 and 22 at population 2 |
| Growth.CityStateThreshold | core/src/com/unciv/logic/city/PopulationManager.kt:47-53 | a city-state pays 1.5 times the base cost: `(3 * base) / 2` when a human plays it, and `3 * base * modifier / 2` truncated once when the AI owns it |
| Growth.CityStateSingleTruncation | core/src/com/unciv/logic/city/PopulationManager.kt:47-53 | both multipliers apply before the single truncation: an AI city-state of one citizen with modifier 0.9 pays 20, where truncating after the 1.5 would give 19 |
| Growth.CityStateScaled | core/src/com/unciv/logic/city/PopulationManager.kt:49-53 | for any non-negative base cost, a city-state's cost is `(3 * base) / 2` when a human plays it and `3 * base * modifier / 2` truncated when the AI owns it |
| Growth.BaseFoodStrictlyIncreasing | core/src/com/unciv/logic/city/PopulationManager.kt:48 | each extra citizen raises the base cost by at least 6 |
| Growth.MultipliedMonotone | core/src/com/unciv/logic/city/PopulationManager.kt:49-52 | the owner's multipliers keep a larger non-negative base cost at least as large |
| Growth.ScaledMonotone | core/src/com/unciv/logic/city/PopulationManager.kt:49-53 | the owner's multipliers and truncation keep a larger base cost at least as large |
| Growth.FoodToNextPopulationMonotone | core/src/com/unciv/logic/city/PopulationManager.kt:46-54 | with a non-negative AI modifier the threshold never decreases as population grows |
| Growth.ThresholdPositive | core/src/com/unciv/logic/city/PopulationManager.kt:46-54 | for population at least 1 the threshold is at least 1 under rules that keep it positive |
| Growth.CarriedOver | core/src/com/unciv/logic/city/PopulationManager.kt:80-86 | for a non-negative threshold the food carried over after growth is at most 95 percent of it, and it is non-negative when the percentage is too; a negative percentage is not capped from below |
| Growth.CarriedOverBound | core/src/com/unciv/logic/city/PopulationManager.kt:86 | for a non-negative threshold the truncated share of a percentage of at most 95 is at most 95 percent of the threshold, and at least 0 when the percentage is non-negative |
| Growth.CarryOverCapped | core/src/com/unciv/logic/city/PopulationManager.kt:85 | any percentage of 95 or more carries over exactly as much as 95 |
| Growth.PopulationAfterAdd | core/src/com/unciv/logic/city/PopulationManager.kt:96-99 | population changes by `count` unless that would go below 0, in which case it becomes exactly 0 |
| Growth.StarvationLosesAtMostOne | core/src/com/unciv/logic/city/PopulationManager.kt:71-77 | for a city of at least one citizen whose thresholds are positive: when the store goes negative the city loses exactly one citizen if it had more than one, the store becomes 0, it does not grow that turn, and the starving notice is sent exactly when the turn's food is negative |
| Growth.NeverStarvesBelowOne | core/src/com/unciv/logic/city/PopulationManager.kt:74-77 | a city with at least one citizen still has one after the turn |
| Growth.GrowthGainsExactlyOne | core/src/com/unciv/logic/city/PopulationManager.kt:78-88 | reaching the threshold adds exactly one citizen and leaves `stored - T + carried-over share` |
| Growth.AtMostOneCitizenPerTurn | core/src/com/unciv/logic/city/PopulationManager.kt:70-91 | one turn changes population by at most one either way; growth is one above the post-starvation population; a loss only happens with a negative store |
| Growth.FoodStaysNonNegative | core/src/com/unciv/logic/city/PopulationManager.kt:74-86 | for a non-negative carry-over percentage and AI modifier, the store ends every turn non-negative, and growth with a positive threshold leaves less food than it found |
| Growth.GrowthExample | core/src/com/unciv/logic/city/PopulationManager.kt:78-89 | one citizen with 15 food grows to two, with 0 food left and one growth notice |
| Growth.StarvationExample | core/src/com/unciv/logic/city/PopulationManager.kt:71-77 | three citizens with 2 food and a yield of -5 drop to two, with 0 food and one starving notice |
| Growth.EmptyCityRegrows | core/src/com/unciv/logic/city/PopulationManager.kt:70-91 | an empty city has threshold 0, so a starving turn still grows it to one citizen with both notices |
| Growth.NegativeCarryOverExample | core/src/com/unciv/logic/city/PopulationManager.kt:80-86 | a carry-over percentage of -100 leaves a city that grew from 1 to 2 citizens with -15 food |
| CityContext.TileCandidates | core/src/com/unciv/logic/city/PopulationManager.kt:127-129 | the candidates are exactly the city's tiles within 3 of the centre that do not already yield |
| CityContext.MaxBy | core/src/com/unciv/logic/city/PopulationManager.kt:131 | `maxByOrNull` is empty exactly for an empty sequence, and otherwise returns an element no other element outscores |
| CityContext.MaxByIsFirst | core/src/com/unciv/logic/city/PopulationManager.kt:131 | among equally scored elements `maxByOrNull` returns the first |
| CityContext.BestTileIsBest | core/src/com/unciv/logic/city/PopulationManager.kt:127-135 | the best tile is a candidate that no candidate outranks; there is none exactly when no tile is a candidate |
| Allocation.AssignStepAddsAtMostOne | core/src/com/unciv/logic/city/PopulationManager.kt:147-156 | one assignment iteration removes nobody, keeps every count, and takes at most one free citizen |
| Allocation.AssignTieGoesToSpecialist | core/src/com/unciv/logic/city/PopulationManager.kt:148 | an equal score gives the citizen to the specialist and leaves the tiles alone |
| Allocation.AssignTileOnlyWhenStrictlyBetter | core/src/com/unciv/logic/city/PopulationManager.kt:148-152 | a tile is added only if it is the best candidate and scores strictly above the job; the specialists are then untouched |
| Allocation.AssignStepTakesExactlyOne | core/src/com/unciv/logic/city/PopulationManager.kt:147-156 | when worked tiles always count as yielding, an iteration that changes anything takes exactly one free citizen |
| Allocation.AssignRunFree | core/src/com/unciv/logic/city/PopulationManager.kt:125-157 | `n` iterations keep every tile and count and lower free population by at most `n` |
| Allocation.AssignRunRespectsCapacity | core/src/com/unciv/logic/city/PopulationManager.kt:137-140 | a type the run added to is listed in the capacity and ends at or below it |
| Allocation.AssignRunManual | core/src/com/unciv/logic/city/PopulationManager.kt:137 | with manual specialists the run never changes the specialists |
| Allocation.AssignRunAddsCityTiles | core/src/com/unciv/logic/city/PopulationManager.kt:127-128 | every tile the run adds is one of the city's tiles within 3 of the centre |
| Allocation.EvictionHasCandidate | core/src/com/unciv/logic/city/PopulationManager.kt:200-202 | while citizens are missing there is a tile or a specialist to evict, unless manual specialists alone outnumber the citizens |
| Allocation.EvictStepFreesOne | core/src/com/unciv/logic/city/PopulationManager.kt:199-203 | each eviction raises free population by exactly one, adds nothing and leaves the statistics alone |
| Allocation.EvictTieRemovesSpecialist | core/src/com/unciv/logic/city/PopulationManager.kt:200-203 | equal raw ranks evict the specialist, not the tile |
| Allocation.EvictRunFree | core/src/com/unciv/logic/city/PopulationManager.kt:177-204 | `n` evictions raise free population by exactly `n` and only remove; a run that evicted anything started with citizens missing and ends with none free beyond zero |
| Allocation.EvictRunManual | core/src/com/unciv/logic/city/PopulationManager.kt:192 | with manual specialists only tiles are evicted |
| Allocation.EvictRunLockedLast | core/src/com/unciv/logic/city/PopulationManager.kt:179-187 | once a locked tile has been evicted, no unlocked tile remains worked |
| Allocation.RebalancedBalances | core/src/com/unciv/logic/city/PopulationManager.kt:100-105 | after `addPopulation`'s pass no citizen is missing; a deficit only removes workers (manual specialists keep their clamped counts), a surplus only adds workers, at most one per free citizen, within specialist capacity and on city tiles within 3 of the centre |
| Population.PopulationManager.constructor | core/src/com/unciv/logic/city/PopulationManager.kt:20-25 | a new manager has one citizen, no food and no specialists |
| Population.PopulationManager.Clone | core/src/com/unciv/logic/city/PopulationManager.kt:31-37 | the copy is fresh and has the same population, food and count for every type |
| Population.PopulationManager.GetNumberOfSpecialists | core/src/com/unciv/logic/city/PopulationManager.kt:39 | the loop returns the sum of all specialist counts |
| Population.PopulationManager.GetFreePopulation | core/src/com/unciv/logic/city/PopulationManager.kt:41-44 | free population is population minus worked tiles minus specialists |
| Population.PopulationManager.GetPopulationFilterAmount | core/src/com/unciv/logic/city/PopulationManager.kt:59-67 | "Specialists" counts the specialists, "Population" the citizens, both follower filters the religion's majority followers, "Unemployed" the free citizens, any other filter 0 |
| Population.PopulationManager.GetMaxSpecialists | core/src/com/unciv/logic/city/PopulationManager.kt:208-213 | the loop returns the merged grants of all buildings, and each type's capacity is the sum of its slots |
| Population.PopulationManager.BestJob | core/src/com/unciv/logic/city/PopulationManager.kt:137-140 | the job chosen is nothing with manual specialists or when no type has room; otherwise a type with room that no other such type outranks |
| Population.PopulationManager.WorstWorkedTile | core/src/com/unciv/logic/city/PopulationManager.kt:179-187 | the tile chosen is nothing only with no worked tile; otherwise a worked tile, locked only when all worked tiles are locked |
| Population.PopulationManager.WorstJob | core/src/com/unciv/logic/city/PopulationManager.kt:192-193 | the job chosen is nothing with manual specialists or no assigned type; otherwise an assigned type that outranks no other |
| Population.PopulationManager.AssignOneCitizen | core/src/com/unciv/logic/city/PopulationManager.kt:127-156 | one iteration makes a legal best-job choice and performs exactly the assignment step for it, adding the taken food to the running statistics |
| Population.PopulationManager.AutoAssignPopulation | core/src/com/unciv/logic/city/PopulationManager.kt:115-159 | runs exactly as many iterations as citizens were free at entry, each a legal step. Free population stays between 0 and its entry value. It only adds. Added specialists respect capacity and never happen with manual specialists. Added tiles are city tiles within 3 of the centre. The statistics are recomputed at the end |
| Population.PopulationManager.DropUnworkableTiles | core/src/com/unciv/logic/city/PopulationManager.kt:162-166 | the worked tiles become exactly those owned by the civilization, worked by this city and within 3 of the centre; the statistics stay the same |
| Population.PopulationManager.ClampSpecialists | core/src/com/unciv/logic/city/PopulationManager.kt:169-173 | the specialists become exactly the allocation clamped to the building capacity |
| Population.PopulationManager.EvictOneCitizen | core/src/com/unciv/logic/city/PopulationManager.kt:178-203 | one iteration makes legal worst choices, at least one of which exists, performs exactly the eviction step for them, extends the legal run by it and raises free population by one |
| Population.PopulationManager.EvictUntilBalanced | core/src/com/unciv/logic/city/PopulationManager.kt:177-204 | the loop performs a legal eviction run and ends with free population exactly 0, or unchanged when it was not negative |
| Population.PopulationManager.UnassignExtraPopulation | core/src/com/unciv/logic/city/PopulationManager.kt:161-206 | after dropping unworkable tiles and clamping, runs legal evictions until free population is exactly 0 (or leaves it if already non-negative). It only removes. Manual specialists stay clamped. Locked tiles go last |
| Population.PopulationManager.AddPopulation | core/src/com/unciv/logic/city/PopulationManager.kt:95-105 | population becomes `max(population + count, 0)`; the workforce is `Rebalanced`: with citizens missing, exactly a legal eviction run from the cleaned assignment ending with none missing, otherwise exactly one legal assignment iteration per free citizen followed by a statistics refresh; free population ends non-negative |
| Population.PopulationManager.SetPopulation | core/src/com/unciv/logic/city/PopulationManager.kt:111-113 | population becomes `max(count, 0)` and the workforce is `Rebalanced` for it exactly as by `addPopulation` |
| Population.PopulationManager.Starve | core/src/com/unciv/logic/city/PopulationManager.kt:74-77 | a negative store empties the store and, above one citizen, costs exactly one citizen with the workforce `Rebalanced` for it; otherwise population and workforce are unchanged |
| Population.PopulationManager.Grow | core/src/com/unciv/logic/city/PopulationManager.kt:78-90 | growth happens exactly when the store reaches the threshold; it then pays the threshold, keeps the carried-over share, adds one citizen with the workforce `Rebalanced`, and sets `updateCitizens`; otherwise nothing changes |
| Population.PopulationManager.NextTurn | core/src/com/unciv/logic/city/PopulationManager.kt:70-91 | population, food and notifications are exactly the turn outcome `NextTurnOutcome`; the workforce is rebalanced after a starvation loss and again after growth, and is untouched on a turn with neither; `updateCitizens` is set exactly on growth |

## Left out

- Religion: the pressure update on a population change (lines 107-108) is not modelled. The
  follower count for the two religion filters (line 63) is a parameter of
  `GetPopulationFilterAmount`.
- The great-person bonus precomputation (line 118) is not modelled. The food bonus of a
  specialist (lines 119-123) is one number, `specialistFoodBonus`. The products that produce
  it are not modelled.
- Notifications (lines 73 and 89) are returned as a list of events. The message text, the
  location and the icons are not modelled.
- The carry-over percentage (lines 80-83) is a parameter of `NextTurn`. The sum over uniques
  that yields it is not modelled.
- The ranking functions, the statistics update, tile yields, ownership and building grants
  are uninterpreted fields of `World`. Only the running food entry is threaded through the
  assignment loop. The rankings see the statistics as a value, not the rest of the city.
- Iteration order of hash sets and maps is not modelled. Which of several equally ranked
  specialist types, or equally locked worked tiles, is chosen is left open, and any legal
  choice is allowed. The Kotlin counter keeps insertion order, but that order depends on
  history the model does not keep.
- Floating point: `pow(1.8)` is computed exactly on integers, and the multipliers are exact
  reals. A double rounding that would make `floor` differ is not modelled. The `Float`
  division `/ 100f` of the carried-over share (line 86) is an exact real division too, so a
  single-precision rounding error before `toInt()`, possible only for very large thresholds,
  is not modelled.
- Integer width: `Int` is unbounded here. Overflow of 32-bit counts is not modelled.
- `Counter.kt` is not part of this model. The counter is assumed to default to 0 on lookup
  and to drop a key whose count reaches 0 after `add`.
- Population.PopulationManager.UnassignExtraPopulation: the `!!` failure at line 202 is a
  precondition (`Rebalanceable`), not a modelled exception. `AddPopulation`, `SetPopulation`
  and `NextTurn` carry it for the population they rebalance to.
- Serialization (`@Transient` on line 17) and the save/load code around the manager are not
  part of this model.
