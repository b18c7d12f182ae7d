# Ecosystem simulation engine, modelled in Dafny

The simulator runs a predator/prey/plant ecosystem on a fixed `width` x `height` grid.
Each cell has two slots: at most one animal and at most one plant.
There are three species:

- **Plant**: energy 1..3. It grows by one each turn and reproduces at energy 3, after which it is reset to 1.
- **Herbivore**: energy 1..10, sees a 3x3 square. It flees carnivores, seeks the richest plant, or wanders. It reproduces at energy 7 or more and loses half its energy when it does.
- **Carnivore**: energy 1..20, sees a 5x5 square. It hunts herbivores and steps towards them. It reproduces at energy 14 or more and loses half its energy when it does.

A `SimulationController` counts turns and keeps a current-phase cursor, which is `null` when no turn is running.
Each turn runs five phases in this order:

1. PLANT_GROWTH
2. HERBIVORES
3. CARNIVORES
4. REPRODUCTION
5. CLEANUP

All randomness comes from one seeded generator.

## How the model is built

The model follows the program's own structure, one module per concern:

- `Positions`: the `Position` record.
- `Cells`: `Cell`.
- `Grids` and `Worlds`: `World`.
- `Randomness`: `RandomGenerator`.
- `Organisms`: `Organism`, `Energetic` and each species' energy rules.
- `Eaters`: `Eater`.
- `Animals`, `Herbivores`, `Carnivores` and `Plants`: the species.
- `Spawning`: the placement that all species share.
- `Phases` and `Turns`: the phase bodies.
- `Controller`: `SimulationController`.

Code that updates objects in place becomes Dafny classes with the same fields:

- `Organism`: energy, alive flag and position.
- `Cell`: an animal slot and a plant slot, each holding an `Organism?`.
- `World`: the row-major cells.
- `RandomGenerator`: the generator state.
- `SimulationController`: world, turn, current-phase cursor, tick interval and generator.

Every class has a value view, `State()`. Every mutating method is proved against a pure function on those values, for example `world.State() == Phases.Grown(old(world.State()))`. The lemmas then prove what the program promises about those functions.

The world invariant (`Grids.ValidGrid`, and `Worlds.World.Valid` on the objects) covers five things:

- every position has exactly one cell, stored at index `y * width + x`;
- each occupant sits in the slot of its kind;
- each occupant's stored position is its cell's position;
- energy stays in `0..MAX_ENERGY`;
- `alive` holds exactly when energy is positive.

Every operation is proved to keep this invariant.

The source leaves many behaviours as TODO stubs:

- Plant: `grow`, `canReproduce`, `spawn`, `addEnergy` and `subEnergy`.
- Organism: `setEnergy`.
- Animal: `perceive`, `chooseMove`, `canReproduce` and `spawn`.
- Herbivore: `chooseFlee`, `chooseMove`, `canEat`, `eat` and `canReproduce`.
- Carnivore: `chooseHunt`, `chooseMove`, `canEat`, `eat` and `canReproduce`.
- SimulationController: the five `phase*` methods.

The model implements what these stubs' doc comments state and what the public tests under `src/prof/test/open` check. Those comments and tests are cited in the table below. The choices made where they leave room:

- **`setEnergy(v)`** stores `max(v, 0)`. The organism is alive exactly when `v > 0`.
- **Random moves** go to a random *completely empty* cell, using `randomNeighbor` with the EMPTY filter. The pattern is the animal's vision for `Animal.chooseMove`, and the 3x3 `MOVEMENT_RANGE` square for both species' fallback.
- **Fleeing** goes to the perceived cell with a free animal slot whose distance to the nearest perceived carnivore is largest. Ties go to the first such cell in perception order.
- **Seeking** goes to the perceived cell with a plant and a free animal slot whose plant has the most energy. Ties go to the first such cell.
- **Hunting** picks the first perceived herbivore.
- **The chase step** is one cell towards the prey along the axis of the larger difference, or diagonal on a tie.
- **`spawn`** draws a free cardinal neighbour with `randomNeighbor(pos, world, EMPTY_ANIMAL / EMPTY_PLANT)`. If there is none, nothing changes and nothing is drawn.
- **In the herbivore and carnivore phases**, a cell acts when it held a live animal of the species at the start of the phase and still holds one when its turn comes. This keeps an animal that moved forward in the scan from moving twice.
  - The acting animal chooses its move and pays one unit of energy.
  - If it has a destination, it eats there when it can.
  - It then moves there by `transferAnimal` when that cell's animal slot is free.
- **The reproduction phase** visits the cells in row-major order. In each cell the animal tries to spawn first, then the plant.
- **Cleanup** removes every occupant with energy 0.

**Other modelling choices.**

- **Randomness.** `java.util.Random` is modelled as an abstract deterministic state, `Randomness.Rng`. Each draw is a function from a state to a value and the next state. `DrawInt` is a 48-bit linear congruential step whose result is reduced into `[0, bound)`. It does not claim to reproduce Java's exact stream.
  - The source's single static generator becomes a `RandomGenerator` object owned by each controller (see "Left out").
- **Integer width.** Java `int` arithmetic that can overflow is written out with `Positions.WrapInt32`:
  - the turn counter wraps at 2^31;
  - the sums in `addEnergy` and `subEnergy` are 32-bit: a herbivore at 9 given `addEnergy(Integer.MAX_VALUE)` dies (`Organisms.AddEnergyWrapKills`). Within the core the amounts are a meal's nutrition (at most 20) and the move cost 1, so no sum there overflows;
  - `distanceTo` is covered under Findings.

**Where the doc comments leave room.**

- `Plant.canReproduce` asks for space:
  - its doc comment (`Plant.java:85-90`) asks for "a free neighbor";
  - `PlantTest.java:160-176` expects `true` when only a diagonal plant slot is free.

  The model requires a free plant slot among the eight neighbours. `Plant.spawn` still places its child only in a cardinal neighbour. The animals' `canReproduce` is the energy check alone, as `Animal.java:110-120` documents.
- Every animal that takes its turn pays one unit of energy before any eating gain, whether it moves or finds no destination (`ControllerPhasesTest.java:45-77` and `163-201`).

## Model

| member | source | states |
|---|---|---|
| Positions.NewPosition | src/student/model/core/Position.java:23-30 | the record is built exactly when both coordinates are non-negative and then holds them; a negative `x` is the error reported even when `y` is negative too, a negative `y` otherwise |
| Positions.WrapInt32 | src/student/model/core/Position.java:43 | Java `int` addition: a value already in the `int` range is kept, any other value is replaced by the `int` congruent to it modulo 2^32 |
| Positions.DistanceTo | src/student/model/core/Position.java:35-44 | `distanceTo` as written: `Integer.MAX_VALUE` for a missing position, otherwise the Manhattan distance whenever it fits in an `int` |
| Positions.DistanceOrMax | src/student/model/core/Position.java:35-44 | the documented distance: never negative, `Integer.MAX_VALUE` for a missing position, otherwise exactly `|x1 - x2| + |y1 - y2|` |
| Positions.DistanceToOverflows | src/student/model/core/Position.java:43 | from (0,0) to (MAX,MAX) the code returns -2 where the documented distance is 2·MAX |
| Positions.DistanceToAgreesWhenSmall | src/student/model/core/Position.java:41-44 | the written and the documented distance coincide whenever the true distance fits in an `int` |
| Positions.DistanceFitsInWorld | src/student/model/core/Position.java:43 | two positions of one world with `width + height <= 2^31 + 1` never overflow, so there `distanceTo` is the Manhattan distance |
| Positions.DistanceSymmetric | src/student/model/core/Position.java:43 | the distance does not depend on the order of the two positions |
| Positions.DistanceZeroIffEqual | src/student/model/core/Position.java:14-44 | the distance is 0 exactly between equal positions (record equality is by coordinates) |
| Positions.DistanceTriangle | src/student/model/core/Position.java:43 | the distance obeys the triangle inequality |
| Organisms.Born | src/student/model/organisms/Plant.java:39-54 | a species constructor clamps the requested energy into `[1, MAX_ENERGY]` (keeping it when inside), and the organism is alive, unplaced and valid; the Herbivore and Carnivore constructors clamp the same way with their own maxima |
| Organisms.Offspring | src/student/model/organisms/Herbivore.java:149-157 | `reproduce()` gives a living, unplaced organism of the parent's species at its default energy, which is below the reproduction threshold |
| Organisms.AfterSetEnergy | src/student/model/organisms/Organism.java:70-78 | `setEnergy(v)` leaves the organism alive exactly when `v > 0`, stores `v` then and 0 otherwise, and keeps species and position |
| Organisms.AfterDefaultAddEnergy | src/student/model/behaviors/Energetic.java:37-44 | the default `addEnergy(d)` adds in 32-bit `int` and goes through `setEnergy`: whenever the sum fits, the organism is alive exactly when `energy + d > 0` and holds `max(energy + d, 0)` |
| Organisms.AfterAddEnergy | src/student/model/organisms/Herbivore.java:162-170 | a species `addEnergy` always keeps the energy invariant (even when the `int` sum wraps); whenever the sum fits it adds the amount below the cap, stops at `MAX_ENERGY` from the cap on (alive there), and kills at a non-positive sum |
| Organisms.AfterSubEnergy | src/student/model/organisms/Plant.java:133-141 | `subEnergy(c)` subtracts in 32-bit `int`; whenever the difference fits, the organism stays alive exactly when its energy exceeded `c`, is then lowered by exactly `c`, and is otherwise left at 0 |
| Organisms.AfterGrow | src/student/model/organisms/Plant.java:59-67 | `grow` adds one to a living plant below 3 and changes neither a dead plant nor a full one |
| Organisms.AfterSpawnParent | src/student/model/organisms/Animal.java:130-141 | after a successful `spawn` a plant is back at 1 and an animal has lost `e/2`; either way the parent is alive, valid and no longer able to reproduce |
| Organisms.AddEnergyAgreesBelowCap | src/student/model/organisms/Herbivore.java:167-170 | the capped `addEnergy` agrees with the `Energetic` default whenever the `int` sum does not exceed the cap |
| Organisms.AddEnergyWrapKills | src/student/model/organisms/Herbivore.java:168 | the `int` sum wraps: a living herbivore at 9 given `Integer.MAX_VALUE` ends dead at energy 0 |
| Organisms.SubEnergyIsNegativeAdd | src/student/model/behaviors/Energetic.java:46-53 | `subEnergy(c)` is `addEnergy(-c)` through the default |
| Organisms.SubEnergyKeepsValid | src/student/model/behaviors/Energetic.java:19-24 | paying a non-negative `int` cost never overflows, keeps the energy non-negative and in step with `alive`, and never raises it |
| Organisms.GrowSaturates | src/prof/test/open/PlantTest.java:88-104 | growing a living plant `n` times gives `min(energy + n, 3)`: energy never passes the maximum however often `grow` runs |
| Organisms.Organism.constructor | src/student/model/organisms/Organism.java:27-34 | a new organism is alive with the clamped energy and no position |
| Organisms.Organism.SetPosition | src/student/model/organisms/Organism.java:48-55 | `setPosition(p)` stores `p` and changes nothing else |
| Organisms.Organism.SetEnergy | src/student/model/organisms/Organism.java:70-78 | the object's new state is `setEnergy` on its old state |
| Organisms.Organism.AddEnergy | src/student/model/organisms/Carnivore.java:166-174 | the object's new state is its species' capped `addEnergy`, with the 32-bit sum |
| Organisms.Organism.SubEnergy | src/student/model/behaviors/Energetic.java:46-53 | the object's new state is `subEnergy` on its old state, with the 32-bit difference |
| Organisms.Organism.Grow | src/student/model/organisms/Plant.java:59-67 | the plant object's new state is `grow` on its old state |
| Organisms.Organism.Reproduce | src/student/model/organisms/Plant.java:97-105 | returns a fresh object holding the offspring of the parent's species |
| Cells.CellState.Occupant | src/student/model/core/Cell.java:163-173 | `getOrganism` is nothing exactly for a completely empty cell, the animal when there is one, and the plant otherwise |
| Cells.Cell.constructor | src/student/model/core/Cell.java:29-36 | a new cell keeps its position and has both slots empty |
| Cells.Cell.GetOrganism | src/student/model/core/Cell.java:163-173 | on the object: `null` exactly when both slots are empty, the animal when present, otherwise the plant |
| Cells.Cell.SetAnimal | src/student/model/core/Cell.java:71-78 | the animal slot holds the given animal; the plant slot and the position are unchanged |
| Cells.Cell.RemoveAnimal | src/student/model/core/Cell.java:80-85 | only the animal slot is emptied |
| Cells.Cell.SetPlant | src/student/model/core/Cell.java:117-124 | the plant slot holds the given plant; the animal slot and the position are unchanged |
| Cells.Cell.RemovePlant | src/student/model/core/Cell.java:126-131 | only the plant slot is emptied |
| Grids.RowStartIsProduct | src/student/model/core/World.java:38-45 | row `y` of the row-major storage starts at `y * width` |
| Grids.IndexInjective | src/student/model/core/World.java:80-83 | two positions inside the row width share a storage index only when they are equal, so `getCell` never confuses two cells |
| Grids.ShiftOne | src/student/model/core/World.java:173-178 | one offset from a centre gives a position exactly when the shifted coordinates lie inside the grid, and then that position |
| Grids.ShiftedMembership | src/student/model/core/World.java:173-179 | an offset scan lists exactly the in-bounds positions whose offset from the centre is one of the offsets |
| Grids.NeighborPositionsMembership | src/student/model/core/World.java:154-182 | `getNeighbors` lists exactly the in-bounds positions at Chebyshev distance 1 from `p`, never `p` itself, and with diagonals off only those sharing a row or a column |
| Grids.Deltas8Membership | src/student/model/core/World.java:165-167 | the eight diagonal-mode offsets are all the non-zero offsets in -1..1 |
| Grids.Deltas4Membership | src/student/model/core/World.java:168-170 | the four cardinal offsets are the non-zero offsets in -1..1 on a row or a column |
| Grids.CellAt | src/student/model/core/World.java:74-83 | `getCell`: a cell exactly for an in-bounds position, and it is the cell at that position |
| Grids.WithSlotKeepsValid | src/student/model/core/Cell.java:71-131 | setting or clearing one slot keeps the world invariant when a new occupant belongs in that slot |
| Grids.WithSlotCount | src/student/model/core/Cell.java:71-131 | setting one slot changes the occupant count of that slot kind by the change of occupancy and no other count |
| Grids.MoveAnimalBySlots | src/student/model/core/World.java:126-133 | a successful `transferAnimal` empties the source animal slot and fills the destination's with the same animal, now at the destination's position |
| Grids.MovePlantBySlots | src/student/model/core/World.java:141-148 | the same for `transferPlant` on the plant slots |
| Grids.MoveAnimalKeepsPopulation | src/student/model/core/World.java:126-133 | `transferAnimal` never creates or loses an animal or a plant |
| Grids.MovePlantKeepsPopulation | src/student/model/core/World.java:141-148 | `transferPlant` never creates or loses an animal or a plant |
| Grids.MoveAnimalKeepsValid | src/student/model/core/World.java:126-133 | `transferAnimal` keeps the world invariant: the moved animal's position is its new cell's |
| Grids.MovePlantKeepsValid | src/student/model/core/World.java:141-148 | `transferPlant` keeps the world invariant |
| Worlds.World.constructor | src/student/model/core/World.java:29-46 | the world keeps its dimensions, every in-bounds position has a fresh empty cell at its row-major index, and the invariant holds |
| Worlds.World.GetCell | src/student/model/core/World.java:74-83 | `null` exactly for an invalid position, otherwise the world's cell at that position |
| Worlds.World.TransferAnimal | src/student/model/core/World.java:120-133 | the world after `transferAnimal` is the value transfer: the animal moves only from a cell with one to a cell without one, learns its position, and plants stay; the invariant is kept |
| Worlds.World.TransferPlant | src/student/model/core/World.java:135-148 | the mirror of `transferAnimal` on the plant slots |
| Worlds.World.MoveOccupant | src/student/model/core/World.java:128-131 | the four steps of a transfer (get, remove, set, `setPosition`) empty one slot and fill the other with the moved organism at its new position |
| Worlds.World.TransferOrganism | src/student/model/core/World.java:103-118 | the legacy transfer is `transferAnimal`: only the animal slot ever moves |
| Worlds.World.PlaceOccupant | src/student/model/organisms/Animal.java:130-141 | placing an organism that is not in the world sets its position and fills one slot, keeping the invariant |
| Worlds.World.RemoveOccupant | src/student/model/core/Cell.java:80-85 | emptying one slot keeps the invariant and changes nothing else |
| Worlds.World.GetNeighbors | src/student/model/core/World.java:154-182 | returns the world's cells at the neighbour positions, in offset order |
| Worlds.World.CellAtOffset | src/student/model/core/World.java:174-178 | one pass of the neighbour loop: the cell at the offset when it is inside the world, nothing otherwise |
| Worlds.World.CellsAtOffsets | src/student/model/core/World.java:173-179 | the neighbour loop returns the cells of the in-bounds offset positions, in order |
| Randomness.RandomGenerator.constructor | src/prof/utils/RandomGenerator.java:36-46 | the generator starts from `DEFAULT_SEED` 42 |
| Randomness.RandomGenerator.Reseed | src/prof/utils/RandomGenerator.java:59-66 | after `reseed(s)` the generator is exactly the one seeded with `s`, so equal seeds and equal calls give equal results |
| Randomness.DrawInt | src/prof/utils/RandomGenerator.java:70-79 | a draw with a positive bound lies in `[0, bound)` |
| Randomness.RandomGenerator.NextInt | src/prof/utils/RandomGenerator.java:70-79 | a non-positive bound is an error with no draw; otherwise one draw in `[0, bound)` |
| Randomness.ChooseFrom | src/prof/utils/RandomGenerator.java:111-123 | `choose` gives nothing (and draws nothing) exactly for a missing or empty list, and otherwise an element of the list |
| Randomness.RandomGenerator.Choose | src/prof/utils/RandomGenerator.java:111-123 | `choose(List)` on the generator object is `ChooseFrom` |
| Randomness.RandomGenerator.ChooseArray | src/prof/utils/RandomGenerator.java:125-137 | `choose(T[])` is the same choice over the array's contents, nothing for `null` |
| Randomness.Swap | src/prof/utils/RandomGenerator.java:163-165 | the swap exchanges entries `i` and `j` and keeps every other entry |
| Randomness.SwapPermutes | src/prof/utils/RandomGenerator.java:163-165 | a swap keeps the multiset of elements |
| Randomness.ShuffleFromPermutes | src/prof/utils/RandomGenerator.java:161-166 | the downward pass from any index only reorders the elements |
| Randomness.ShuffledPermutes | src/prof/utils/RandomGenerator.java:151-167 | a complete shuffle is a permutation of its input |
| Randomness.RandomGenerator.SwapElements | src/prof/utils/RandomGenerator.java:163-165 | the in-place swap leaves the array equal to `Swap` of its old contents |
| Randomness.RandomGenerator.ShuffleArray | src/prof/utils/RandomGenerator.java:151-167 | the in-place Fisher-Yates loop leaves the array and generator as the shuffle function says; a `null` array draws nothing |
| Randomness.RandomGenerator.ShuffleList | src/prof/utils/RandomGenerator.java:139-149 | a present list comes back shuffled, a permutation of itself; a missing one draws nothing |
| Randomness.FilterRelations | src/prof/utils/RandomGenerator.java:271-289 | EMPTY is no animal and no plant, ORGANISM is not EMPTY, ANIMAL and PLANT are the negations of EMPTY_ANIMAL and EMPTY_PLANT, ANIMAL is HERBIVORE or CARNIVORE, and no cell is both |
| Randomness.ColumnMembership | src/prof/utils/RandomGenerator.java:207-212 | one column of the square scan lists exactly its offsets from the start row to the radius, skipping the centre |
| Randomness.SquareHas | src/prof/utils/RandomGenerator.java:205-213 | every offset of the square from the start column on, other than the centre, is scanned |
| Randomness.SquareOnly | src/prof/utils/RandomGenerator.java:205-213 | only offsets of the square from the start column on, other than the centre, are scanned |
| Randomness.SquareMembership | src/prof/utils/RandomGenerator.java:205-213 | the square scan lists exactly the offsets within the radius in both coordinates, without the centre |
| Randomness.Neighborhood | src/prof/utils/RandomGenerator.java:171-193 | `buildNeighborhood` refuses exactly the vision levels outside 1..3, with that level in the error |
| Randomness.SquareNeighborhoodMembership | src/prof/utils/RandomGenerator.java:203-214 | the square pattern lists exactly the in-bounds positions within the radius of the centre in both coordinates, never the centre |
| Randomness.NeighborhoodMembership | src/prof/utils/RandomGenerator.java:171-216 | level 1 is exactly the in-bounds cross (distance 1), level 2 the in-bounds 3x3 ring and level 3 the in-bounds 5x5 ring; never the centre, never outside the world |
| Randomness.RandomGenerator.AddValidPosition | src/prof/utils/RandomGenerator.java:218-238 | appends the offset position exactly when it is inside the world |
| Randomness.RandomGenerator.AddOffsets | src/prof/utils/RandomGenerator.java:197-202 | the cross loop produces the in-bounds cross positions in offset order |
| Randomness.RandomGenerator.AddColumn | src/prof/utils/RandomGenerator.java:207-213 | the inner loop appends the column's in-bounds positions top to bottom, skipping the centre |
| Randomness.RandomGenerator.AddSquare | src/prof/utils/RandomGenerator.java:203-214 | the nested loops produce the whole square pattern, column by column |
| Randomness.RandomGenerator.BuildNeighborhood | src/prof/utils/RandomGenerator.java:171-216 | the method returns exactly `Neighborhood`: the error or the pattern's positions in scan order |
| Randomness.CandidatesMembership | src/prof/utils/RandomGenerator.java:255-266 | the filtered list holds exactly the listed positions whose cell exists and passes the filter |
| Randomness.CandidatesNonEmpty | src/prof/utils/RandomGenerator.java:254-268 | some listed position passes the filter exactly when the filtered list is non-empty |
| Randomness.RandomGenerator.CellMatches | src/prof/utils/RandomGenerator.java:258-263 | one loop test: the cell at the position exists and passes the filter |
| Randomness.RandomGenerator.FilterCandidates | src/prof/utils/RandomGenerator.java:255-266 | the filtering loop returns exactly the candidates function |
| Randomness.RandomNeighborOf | src/prof/utils/RandomGenerator.java:240-269 | an invalid level is an error; otherwise `null` (and no draw) exactly when no pattern cell passes the filter, else a passing pattern position |
| Randomness.RandomNeighborIsMatchingNeighbor | src/prof/utils/RandomGenerator.java:240-269 | a drawn neighbour is a pattern position inside the world, not the centre, whose cell passes the filter |
| Randomness.RandomGenerator.RandomNeighbor | src/prof/utils/RandomGenerator.java:240-269 | the four-argument `randomNeighbor` returns and draws as `RandomNeighborOf` |
| Randomness.RandomGenerator.RandomEmptyNeighbor | src/prof/utils/RandomGenerator.java:291-300 | `randomNeighbor(pos, world)` is the cross with EMPTY and never fails |
| Randomness.RandomGenerator.RandomNeighborMatching | src/prof/utils/RandomGenerator.java:302-314 | `randomNeighbor(pos, world, filter)` is the cross with that filter and never fails |
| Randomness.RandomGenerator.RandomNeighborInRange | src/prof/utils/RandomGenerator.java:316-329 | `randomNeighbor(pos, world, level)` is that pattern with EMPTY |
| Eaters.PlantMeal | src/student/model/behaviors/Eater.java:43-62 | with a plant present the eater gains its nutrition through the capped `addEnergy` and the plant slot empties; with none nothing changes; the animal slot is never touched |
| Eaters.AnimalMeal | src/student/model/behaviors/Eater.java:64-83 | an edible animal is eaten the same way; a missing or non-edible animal (a carnivore) leaves eater and cell unchanged; the plant slot is never touched |
| Eaters.MealBounds | src/student/model/behaviors/Eater.java:50-83 | a meal never lowers the eater's energy, never lifts it past its maximum, and keeps it valid |
| Eaters.ConsumePlant | src/student/model/behaviors/Eater.java:43-62 | on the objects: the eater's new state is the meal's, the plant slot is empty, the animal slot unchanged |
| Eaters.ConsumeAnimal | src/student/model/behaviors/Eater.java:64-83 | on the objects: the eater's new state is the meal's; an edible animal leaves its slot, anything else stays; the plant slot is unchanged |
| Animals.PerceivedMembership | src/student/model/organisms/Animal.java:57-68 | `perceive` lists exactly the in-bounds positions of the species' vision square, never the animal's own cell |
| Animals.DefaultMove | src/student/model/organisms/Animal.java:73-84 | the default `chooseMove` is `null` (with no draw) exactly when no perceived cell is completely empty, otherwise a completely empty perceived cell |
| Animals.DefaultChooseMove | src/student/model/organisms/Animal.java:73-84 | on the objects: returns the world's cell at the chosen position, and draws as `DefaultMove` |
| Animals.AnimalSpawnSucceedsIff | src/student/model/organisms/Animal.java:110-141 | `spawn` succeeds exactly when the animal is alive at its threshold and a cardinal neighbour has a free animal slot |
| Animals.AnimalSpawnEffect | src/student/model/organisms/Animal.java:130-141 | on success one animal more, no plant more and the parent at `e - e/2`; on failure grid and generator unchanged; the invariant is kept either way |
| Animals.AnimalSpawnChild | src/prof/test/open/Phase4Test.java:50-78 | the child is a living animal of the parent's species at its default energy, in a cardinal neighbour whose animal slot was free |
| Animals.Spawn | src/student/model/organisms/Animal.java:130-141 | on the objects: the world, generator and result are `AnimalSpawned`, and the invariant holds |
| Herbivores.Best | src/student/model/organisms/Herbivore.java:82-93 | the best-scoring position of a list, nothing exactly for an empty list; no listed position scores higher |
| Herbivores.BestIsFirst | src/prof/test/open/HerbivoreTest.java:175-196 | ties go to the earliest: every position before the chosen one scores strictly less |
| Herbivores.NearestDistance | src/student/model/organisms/Herbivore.java:67-77 | the distance to the nearest predator: no predator is closer, and some predator is exactly that far |
| Herbivores.PredatorsMembership | src/student/model/organisms/Herbivore.java:67-77 | the threats are exactly the perceived cells holding a carnivore |
| Herbivores.FleeTargetIsFree | src/student/model/organisms/Herbivore.java:67-77 | a flee target is a perceived cell with a free animal slot |
| Herbivores.FleeTargetSpec | src/student/model/organisms/Herbivore.java:67-77 | without a perceived carnivore `chooseFlee` is `null`; with one, `null` exactly when no perceived cell is free, else a free cell that no free perceived cell beats in distance to the nearest carnivore |
| Herbivores.PasturesMembership | src/student/model/organisms/Herbivore.java:82-93 | the grazing candidates are exactly the perceived cells with a plant and no animal |
| Herbivores.SeekTargetIsFree | src/student/model/organisms/Herbivore.java:82-93 | a seek target is a perceived plant whose cell has a free animal slot |
| Herbivores.SeekTargetSpec | src/student/model/organisms/Herbivore.java:82-93 | no seek target exactly when every perceived plant's cell holds an animal; otherwise a reachable plant of maximal energy |
| Herbivores.HerbivoreMoveIsFreeNeighbor | src/student/model/organisms/Herbivore.java:15-30 | wherever the herbivore goes, it is a cell of its 3x3 square, not its own, with a free animal slot |
| Herbivores.HerbivoreMovesWhenRoom | src/prof/test/open/HerbivoreTest.java:89-98 | with a completely empty cell in its 3x3 square the herbivore always has a destination |
| Herbivores.FleeingComesFirst | src/student/model/organisms/Herbivore.java:15-21 | with a carnivore in view and a free perceived cell, the move is the flee target and draws nothing |
| Herbivores.CanEat | src/student/model/organisms/Herbivore.java:98-108 | `canEat` is true exactly for an existing cell holding a plant; a `null` cell is refused |
| Herbivores.Eat | src/student/model/organisms/Herbivore.java:110-119 | `eat` is `consumePlant`: the herbivore gains the plant's energy up to 10 and the plant is gone |
| Herbivores.ChooseMove | src/student/model/organisms/Herbivore.java:82-93 | on the objects: returns the world's cell at `HerbivoreMove`'s choice and draws as it says |
| Carnivores.FirstCandidate | src/student/model/organisms/Carnivore.java:76-90 | the first entry of a filtered list is the first listed position that passes the filter |
| Carnivores.HuntTargetNoneIff | src/student/model/organisms/Carnivore.java:76-90 | `chooseHunt` is `null` exactly when no perceived cell holds a herbivore |
| Carnivores.HuntTargetIsFirstPrey | src/student/model/organisms/Carnivore.java:76-90 | the prey chosen is a perceived herbivore, the first in perception order |
| Carnivores.Sign | src/student/model/organisms/Carnivore.java:96-107 | the unit step for one coordinate: -1, 0 or 1, zero exactly for no difference, and towards the target |
| Carnivores.ChaseStep | src/student/model/organisms/Carnivore.java:96-107 | the chase step is within one cell in each coordinate |
| Carnivores.ChaseStepCloser | src/student/model/organisms/Carnivore.java:96-107 | each chase step strictly lowers the Manhattan distance to the prey and always moves |
| Carnivores.ChaseStepInBounds | src/student/model/organisms/Carnivore.java:96-107 | a chase step between two in-world positions stays in the world |
| Carnivores.ChaseAlongColumn | src/prof/test/open/CarnivoreTest.java:209-222 | from (2,2) towards prey at (2,4) the carnivore steps to (2,3) |
| Carnivores.CarnivoreChases | src/prof/test/open/Phase3Test.java:73-86 | with prey in view the carnivore draws nothing, takes the chase step and ends strictly closer |
| Carnivores.CarnivoreWanders | src/prof/test/open/CarnivoreTest.java:225-234 | with no prey in view a move is to a completely empty cell of the 3x3 square, not its own; no move draws nothing |
| Carnivores.CarnivoreMoveIsNeighbor | src/student/model/organisms/Carnivore.java:26-29 | every carnivore move stays within its 3x3 `MOVEMENT_RANGE` square, never its own cell |
| Carnivores.CanEat | src/student/model/organisms/Carnivore.java:113-123 | `canEat` is true exactly for an existing cell whose animal is a herbivore, and such an animal is edible |
| Carnivores.Eat | src/student/model/organisms/Carnivore.java:125-134 | with a herbivore present the carnivore gains its energy up to 20 and the prey's slot empties; otherwise nothing changes; plants stay |
| Carnivores.ChooseMove | src/student/model/organisms/Carnivore.java:96-107 | on the objects: returns the world's cell at `CarnivoreMove`'s choice and draws as it says |
| Plants.PlantCanReproduceMeans | src/student/model/organisms/Plant.java:85-95 | `canReproduce` holds exactly for a living plant at energy 3 with a free plant slot among its eight neighbours |
| Plants.FreePlantNeighbor | src/student/model/organisms/Plant.java:85-95 | the neighbour scan finds a free plant slot exactly when some in-world cell at Chebyshev distance 1 has one |
| Plants.PlantSpawnSucceedsIff | src/student/model/organisms/Plant.java:107-118 | `spawn` succeeds exactly when `canReproduce` holds and a cardinal neighbour has a free plant slot |
| Plants.PlantSpawnEffect | src/student/model/organisms/Plant.java:107-118 | on success one plant more, no animal more and the parent back at 1; on failure grid and generator unchanged; the invariant is kept |
| Plants.DiagonalRoomIsNotEnough | src/prof/test/open/PlantTest.java:160-176 | with the four cardinal plant slots taken, `canReproduce` may hold but `spawn` fails and changes nothing |
| Plants.Spawn | src/student/model/organisms/Plant.java:107-118 | on the objects: the world, generator and result are `PlantSpawned`, and the invariant holds |
| Spawning.Newborn | src/student/model/organisms/Plant.java:97-105 | a newborn placed at a position is a valid occupant of the slot of its kind there |
| Spawning.SpawnTarget | src/student/model/organisms/Animal.java:130-141 | the drawn target is an in-world cardinal neighbour whose slot of the parent's kind is free; without one nothing is drawn |
| Spawning.SpawnTargetIsOtherCell | src/student/model/organisms/Animal.java:130-141 | the target cell is never the parent's own cell and its slot is free |
| Spawning.Spawned | src/student/model/organisms/Animal.java:130-141 | a failed placement leaves grid and generator unchanged |
| Spawning.SpawnedIffCardinalSpace | src/student/model/organisms/Animal.java:130-141 | the placement succeeds exactly when some cardinal neighbour has the slot free |
| Spawning.SpawnedKeepsValid | src/student/model/organisms/Plant.java:107-118 | a placement keeps the world invariant |
| Spawning.SpawnedEffect | src/student/model/organisms/Plant.java:107-118 | on success the slot count grows by one, the other slot count stays, the parent pays, and exactly one cardinal neighbour with a free slot gains the newborn; every other cell is unchanged |
| Spawning.PlaceChild | src/student/model/organisms/Animal.java:130-141 | on the objects: the placement ends as `Spawned` says and keeps the invariant |
| Spawning.DrawTarget | src/student/model/organisms/Animal.java:130-141 | the draw on the objects is `SpawnTarget` |
| Spawning.PlaceDrawn | src/student/model/organisms/Plant.java:107-118 | after the draw: nothing without a target, otherwise the newborn is placed, so the whole placement is `Spawned` |
| Spawning.PutChild | src/student/model/organisms/Animal.java:130-141 | `reproduce`, placement in the target slot and the parent's payment give `PlaceNewborn` |
| Spawning.PayForChild | src/student/model/organisms/Animal.java:130-141 | the parent's energy becomes `AfterSpawnParent` of its old state, in its own slot, and nothing else changes |
| Phases.GrowthSpec | src/student/controller/SimulationController.java:356-364 | growth keeps the invariant, the animals and which cells hold plants, and each plant grows by one if alive and below 3 |
| Phases.MoveOfIsNeighbor | src/student/model/organisms/Herbivore.java:27-30 | a chosen destination of either species is one of the eight cells around the animal, inside the world |
| Phases.TurnToKeepsValid | src/student/controller/SimulationController.java:366-384 | acting on a destination keeps the world invariant |
| Phases.AnimalTurn | src/student/controller/SimulationController.java:366-384 | one animal's turn keeps the cells in place and the invariant |
| Phases.FedKeepsValid | src/student/model/behaviors/Eater.java:43-83 | eating keeps the world invariant |
| Phases.BlockedAnimalPays | src/prof/test/open/ControllerPhasesTest.java:163-201 | a living animal with no destination keeps its cell and position and loses exactly one unit; nothing else changes |
| Phases.EaterPaysThenGains | src/prof/test/open/ControllerPhasesTest.java:45-60 | a herbivore moving onto a plant pays one, then gains the plant's energy up to its cap, takes that cell, and the plant is gone |
| Phases.HunterPaysThenGains | src/prof/test/open/ControllerPhasesTest.java:62-77 | a carnivore moving onto a herbivore pays one, then gains the prey's energy up to its cap and takes the prey's cell; plants stay |
| Phases.HerbivoreTurnKeepsAnimals | src/student/controller/SimulationController.java:366-374 | a herbivore's turn never adds or removes an animal |
| Phases.AnimalTurnIs | src/student/controller/SimulationController.java:366-384 | an animal's turn is its species' `chooseMove` followed by acting on that destination |
| Phases.CarnivoreTurnKeepsPlants | src/student/controller/SimulationController.java:376-384 | a carnivore's turn leaves every plant exactly as it was |
| Phases.CarnivoreTurnToKeepsPlants | src/student/controller/SimulationController.java:376-384 | acting on any valid destination, a carnivore leaves every plant as it was |
| Phases.AnimalPhaseFromStep | src/student/controller/SimulationController.java:366-384 | the phase from cell `k` is the turn of `k` when it acts and then the phase from `k + 1`, or just the phase from `k + 1` |
| Phases.AnimalPhaseFromKeepsValid | src/student/controller/SimulationController.java:366-384 | every animal phase keeps the world invariant |
| Phases.HerbivorePhaseFromKeepsAnimals | src/student/controller/SimulationController.java:366-374 | the herbivore phase keeps the number of animals |
| Phases.CarnivorePhaseFromKeepsPlants | src/student/controller/SimulationController.java:376-384 | the carnivore phase leaves every plant as it was |
| Phases.AnimalPhaseFromIdle | src/prof/test/open/Phase2Test.java:67-74 | a phase over a world with no live animal of the species changes nothing and draws nothing |
| Phases.ReproduceCellGrows | src/student/controller/SimulationController.java:386-394 | a cell's reproduction never removes an animal or a plant |
| Phases.ReproductionFromGrows | src/student/controller/SimulationController.java:386-394 | the reproduction phase never removes an animal or a plant |
| Phases.ReproduceCellIdle | src/prof/test/open/Phase4Test.java:86-104 | with nobody at a threshold a cell's reproduction changes nothing and draws nothing |
| Phases.ReproductionFromIdle | src/prof/test/open/Phase4Test.java:86-104 | below every threshold the phase produces no offspring and leaves every parent as it was |
| Phases.CleanupSpec | src/prof/test/open/Phase5Test.java:75-131 | cleanup keeps the invariant and keeps an occupant exactly when its energy is positive, unchanged |
| Phases.CleanupIdempotent | src/prof/test/open/Phase5Test.java:133-159 | a second cleanup changes nothing |
| Phases.CleanupOfEmptyWorld | src/prof/test/open/Phase5Test.java:161-163 | cleanup of a world with no occupant is a no-op |
| Phases.CleanupCount | src/student/controller/SimulationController.java:396-404 | cleanup never adds an organism |
| Turns.GrowAt | src/student/model/organisms/Plant.java:59-67 | `grow` on the plant of one cell changes exactly that cell, as `GrowCell` says |
| Turns.PlantGrowthPhase | src/student/controller/SimulationController.java:356-364 | the growth loop on the objects ends in `Grown` of the old world |
| Turns.PayMove | src/prof/test/open/ControllerPhasesTest.java:163-182 | the move cost is `subEnergy(1)` on the animal, in its own slot |
| Turns.SpeciesEat | src/student/model/organisms/Animal.java:98-105 | the dynamically dispatched `eat` leaves animal and cell as the species' meal says |
| Turns.EatAt | src/student/model/behaviors/Eater.java:43-83 | eating at another cell of the world gives `Fed` and keeps the invariant |
| Turns.EatAndMove | src/student/model/core/World.java:120-133 | with a destination: eat there if possible, then `transferAnimal` |
| Turns.ActOn | src/student/controller/SimulationController.java:366-384 | pay, eat when possible, and move when the slot is free, as `TurnTo` says |
| Turns.ChooseFor | src/student/model/organisms/Animal.java:73-84 | the species' `chooseMove` on the objects: a world cell other than the animal's own, as `MoveOf` says |
| Turns.AnimalTurnAt | src/student/controller/SimulationController.java:366-384 | one animal's turn on the objects is `AnimalTurn` |
| Turns.AnimalPhaseRun | src/student/controller/SimulationController.java:366-384 | the herbivore or carnivore loop on the objects is `AnimalPhase` of the old world and generator |
| Turns.ReproduceAt | src/student/controller/SimulationController.java:386-394 | one cell's reproduction on the objects is `ReproduceCell` |
| Turns.ReproductionPhaseRun | src/student/controller/SimulationController.java:386-394 | the reproduction loop on the objects is `Reproduction` |
| Turns.CleanAt | src/student/controller/SimulationController.java:396-404 | one cell's cleanup changes exactly that cell, as `CleanCell` says |
| Turns.CleanupPhaseRun | src/student/controller/SimulationController.java:396-404 | the cleanup loop on the objects is `Cleaned` |
| Controller.Ordinal | src/student/controller/SimulationController.java:512-535 | every phase sits at its ordinal in `values()` |
| Controller.NextCycle | src/student/controller/SimulationController.java:552-560 | `next` walks PLANT_GROWTH, HERBIVORES, CARNIVORES, REPRODUCTION, CLEANUP, then `null` |
| Controller.NextLowersRank | src/student/controller/SimulationController.java:301-305 | `next` on the current phase always brings the end of the turn closer, so the loop ends |
| Controller.Remaining | src/student/controller/SimulationController.java:295-309 | the phases still to run are none when idle and the tail of `values()` from the current phase otherwise |
| Controller.FullTurnPhases | src/student/controller/SimulationController.java:241-251 | a turn from idle runs all five phases once, in order |
| Controller.RunPhase | src/student/controller/SimulationController.java:311-324 | running any phase keeps the invariant and the dimensions |
| Controller.RunPhases | src/student/controller/SimulationController.java:301-305 | running phases in sequence keeps the invariant and the dimensions |
| Controller.FullTurn | src/student/controller/SimulationController.java:241-256 | a full turn keeps the invariant and the dimensions |
| Controller.RemainingStep | src/student/controller/SimulationController.java:298-305 | the rest of the turn is the current phase, then the rest from `next` |
| Controller.PhaseByPhaseIsFullTurn | src/student/controller/SimulationController.java:259-289 | five `stepNextPhase` calls from idle do what one `step` does |
| Controller.TurnEndsWithLiving | src/student/controller/SimulationController.java:396-404 | after any turn finished by cleanup, every organism left is alive |
| Controller.EmptyWorldStaysEmpty | src/prof/test/open/Phase1Test.java:65-72 | a full turn of an empty world leaves it empty and draws nothing |
| Controller.ClampTick | src/student/controller/SimulationController.java:193-201 | the stored interval is at least 50 and keeps any request of 50 or more |
| Controller.SimulationController.constructor | src/student/controller/SimulationController.java:91-95 | no world, turn 0, idle, the default tick of 600 ms |
| Controller.SimulationController.WithWorld | src/student/controller/SimulationController.java:97-104 | as `setWorld` on a fresh controller |
| Controller.SimulationController.SetWorld | src/student/controller/SimulationController.java:169-182 | the new world, turn 0 and idle; the tick interval is kept |
| Controller.SimulationController.SetTickIntervalMs | src/student/controller/SimulationController.java:193-201 | stores `max(50, ms)` and changes nothing else |
| Controller.SimulationController.Reset | src/student/controller/SimulationController.java:452-478 | turn 0 and idle; an existing world is replaced by a fresh empty one of the same dimensions; no world stays no world |
| Controller.SimulationController.AllCells | src/student/controller/SimulationController.java:480-494 | every cell of the world in row-major order; nothing without a world |
| Controller.SimulationController.PhasePlantGrowth | src/student/controller/SimulationController.java:356-364 | the world becomes `Grown` of itself; no draw |
| Controller.SimulationController.PhaseHerbivores | src/student/controller/SimulationController.java:366-374 | world and generator become the herbivore phase of themselves |
| Controller.SimulationController.PhaseCarnivores | src/student/controller/SimulationController.java:376-384 | world and generator become the carnivore phase of themselves |
| Controller.SimulationController.PhaseReproduction | src/student/controller/SimulationController.java:386-394 | world and generator become the reproduction phase of themselves |
| Controller.SimulationController.PhaseCleanup | src/student/controller/SimulationController.java:396-404 | the world becomes `Cleaned` of itself; no draw |
| Controller.SimulationController.ExecuteCurrentPhase | src/student/controller/SimulationController.java:311-324 | the current phase runs; idle runs nothing; the current phase stays |
| Controller.SimulationController.StepRemainingPhases | src/student/controller/SimulationController.java:295-309 | the remaining phases run and the controller ends idle; without a world or a phase nothing changes; the turn is never counted |
| Controller.SimulationController.RunRemainingPhases | src/student/controller/SimulationController.java:301-305 | the loop runs exactly the remaining phases and ends idle |
| Controller.SimulationController.AdvancePhase | src/student/controller/SimulationController.java:302-304 | one loop pass: the current phase runs, then the current phase moves on by `next` |
| Controller.SimulationController.Step | src/student/controller/SimulationController.java:225-257 | without a world nothing; mid-turn the rest of the turn, uncounted; from idle the turn is counted (wrapping as a Java `int`) and a full turn runs; it always ends idle |
| Controller.SimulationController.NewTurn | src/student/controller/SimulationController.java:241-256 | the new-turn path counts the turn, runs the full turn and ends idle |
| Controller.SimulationController.RunAllPhases | src/student/controller/SimulationController.java:247-251 | the five phase calls in a row are one full turn |
| Controller.SimulationController.StepNextPhase | src/student/controller/SimulationController.java:259-289 | without a world nothing; from idle the turn is counted and starts at PLANT_GROWTH; the current phase runs and the cursor moves on by `next` |
| Controller.SimulationController.ExecutePhase | src/student/controller/SimulationController.java:326-350 | without a world or a phase nothing; from idle the turn is counted; the current phase is set to it, which runs alone, and the current phase stays |

## Left out

- Listener notifications, log messages, the Swing `Timer`, `start`, `pause`, `toggle` and `dispose`: these are observers and timing, and they never change the engine's state.
- `loadWorld`, and the branch of `reset` taken when a configuration file is set: both read a file. `WorldLoader` reads a file and parses it with `java.util.regex`, whose behaviour is not part of this model. Its placement guards are the `World` and `Cell` guards already modelled.
- The GUI, `Main` and the `Autograder` test runner: they are user interface and test support.
- `nextBoolean`, `nextDouble` and `chance`: they draw booleans and floating-point numbers, which nothing in the modelled core uses.
- Randomness.DrawInt: does not reproduce the exact stream of `java.util.Random`, only a deterministic draw in `[0, bound)`.
- Randomness.RandomGenerator.ShuffleList: models `Collections.shuffle` as the same downward swap loop as `shuffleArray`. The library's own implementation is not part of this model; what the code relies on is that the result is a permutation.
- The `{@code null}` vision level, world and position arguments of the `RandomGenerator` helpers: the model's types never hold them. An invalid vision level is modelled as an error.
- Positions.DistanceTo: the `Integer.MAX_VALUE` returned for `null` is modelled with an `Option` argument.
- Phases.AnimalPhaseFrom: each phase is over a fixed snapshot of which cells start with a live animal of the species. How the source would collect that snapshot is a stub, so the model fixes row-major order.
- The interfaces `Perceptive`, `Reproducible`, `Hunting`, `Fleeing`, `Movable`, `Growable` and `Edible` declare signatures only. Their contracts are carried by the implementing members above.
- Worlds.World.constructor: takes its dimensions as non-negative `Coord` values. `new Cell[height][width]` (`World.java:38`) throws `NegativeArraySizeException` for a negative dimension; that exception is not modelled, so the model says nothing about building a world with a negative width or height.
- Controller.SimulationController.constructor, Controller.SimulationController.WithWorld and Randomness.RandomGenerator.constructor: each controller builds its own generator, seeded with 42. In the source `RandomGenerator.random` is one static field (`RandomGenerator.java:46`), and `reseed` replaces it (`RandomGenerator.java:65`). The model therefore does not capture two consequences: the stream carries over from one controller to the next, and a `reseed` done before a controller is built still applies to it.
- Mutual aliasing beyond the world invariant, such as one organism object placed in two worlds, is not modelled. Each world owns its cells and their occupants.

## Findings

| source | as written | input that shows it | evidently intended | confidence | as-written member | corrected member |
|---|---|---|---|---|---|---|
| src/student/model/core/Position.java:43 | `Math.abs(this.x - other.x) + Math.abs(this.y - other.y)` is computed in 32-bit `int` and wraps | `new Position(0, 0).distanceTo(new Position(Integer.MAX_VALUE, Integer.MAX_VALUE))` returns -2 | the non-negative Manhattan distance (as a `long`, or saturated), as the doc comment promises | not executed | Positions.DistanceToOverflows | Positions.DistanceOrMax |
