/**
 * The phases of a turn on the world's objects. Each walks the cells in
 * row-major order, one small step per cell, and is proved to leave the world
 * (and the generator) exactly as the phase function on values says.
 */
module Turns {
  import opened Wrappers
  import opened Positions
  import opened Organisms
  import opened Cells
  import opened Grids
  import opened Worlds
  import opened Randomness
  import opened Phases
  import Animals
  import Plants
  import Herbivores
  import Carnivores

  // ---------------------------------------------------------------------------
  // Plant growth

  /** The growth phase done for the cells before `k`. */
  ghost function GrownUpTo(g: Grid, k: nat): Grid
    requires ValidGrid(g) && k <= |g.cells|
  {
    g.(cells := seq(|g.cells|, (i: int) requires 0 <= i < |g.cells| => if i < k then GrowCell(g.cells[i]) else g.cells[i]))
  }

  /** `grow` on the plant of cell `k`, if it has one. */
  method GrowAt(world: World, k: nat)
    requires world.Valid() && k < |world.grid|
    modifies world.grid[k].plant
    ensures world.Valid()
    ensures world.State() == old(world.State()).(cells := old(world.State()).cells[k := GrowCell(old(world.State()).cells[k])])
  {
    ghost var s0 := world.State();
    world.CellFacts(k);
    GrowthSpec(s0);
    assert ValidCell(Grown(s0).cells[k]);
    var plant := world.grid[k].plant;
    if plant != null {
      world.OnlyHere(k, plant);
      plant.Grow();
      assert forall j :: 0 <= j < |world.grid| && j != k ==> world.State().cells[j] == s0.cells[j];
      assert world.State().cells[k] == GrowCell(s0.cells[k]);
    }
    assert world.State().cells == s0.cells[k := GrowCell(s0.cells[k])];
  }

  /** The growth phase on the objects: every plant of the world grows once. */
  method PlantGrowthPhase(world: World)
    requires world.Valid()
    modifies world.Repr()
    ensures world.Valid()
    ensures world.State() == Grown(old(world.State()))
    ensures world.Repr() <= old(world.Repr()) + {null}
  {
    ghost var g0 := world.State();
    var k := 0;
    while k < |world.grid|
      invariant 0 <= k <= |world.grid| && world.Valid()
      invariant world.State() == GrownUpTo(g0, k)
      invariant forall m :: 0 <= m < |world.grid| ==>
        world.grid[m].animal == old(world.grid[m].animal) && world.grid[m].plant == old(world.grid[m].plant)
    {
      GrowAt(world, k);
      assert GrownUpTo(g0, k).cells[k := GrowCell(GrownUpTo(g0, k).cells[k])] == GrownUpTo(g0, k + 1).cells;
      k := k + 1;
    }
    assert GrownUpTo(g0, k).cells == Grown(g0).cells;
  }

  // ---------------------------------------------------------------------------
  // Animal turns

  /** The movement cost: `subEnergy(1)` on the animal of cell `k`. */
  method PayMove(animal: Organism, world: World, k: nat)
    requires world.Valid() && k < |world.grid| && world.grid[k].animal == animal
    modifies animal
    ensures world.Valid()
    ensures world.State() == WithSlot(old(world.State()), k, AnimalSlot, Some(AfterSubEnergy(old(animal.State()), 1)))
  {
    ghost var s0 := world.State();
    ghost var paid := Some(AfterSubEnergy(animal.State(), 1));
    world.CellFacts(k);
    world.OnlyHere(k, animal);
    SubEnergyKeepsValid(animal.State(), 1);
    animal.SubEnergy(1);
    assert forall j :: 0 <= j < |world.grid| && j != k ==> world.State().cells[j] == s0.cells[j];
    assert world.State().cells[k] == WithSlot(s0, k, AnimalSlot, paid).cells[k];
    WithSlotKeepsValid(s0, k, AnimalSlot, paid);
  }

  /** The species' `eat` on the target cell, as the dynamic dispatch of `Animal.eat` picks it. */
  method SpeciesEat(animal: Organism, dest: Cell)
    requires IsAnimal(animal.kind) && dest.animal != animal
    requires dest.animal == null || IsAnimal(dest.animal.kind)
    requires dest.plant == null || dest.plant.kind == Plant
    modifies animal, dest
    ensures animal.State() == Meal(old(animal.State()), old(dest.State())).0
    ensures dest.State() == Meal(old(animal.State()), old(dest.State())).1
    ensures dest.animal in {old(dest.animal), null} && dest.plant in {old(dest.plant), null}
  {
    if animal.kind == Herbivore {
      Herbivores.Eat(animal, dest);
    } else {
      Carnivores.Eat(animal, dest);
    }
  }

  /** `eat` by the animal of cell `k` on the cell `dest`, the cell of index `j`. */
  method EatAt(animal: Organism, world: World, k: nat, dest: Cell, ghost j: nat)
    requires world.Valid() && k < |world.grid| && j < |world.grid| && k != j
    requires world.grid[k].animal == animal && world.grid[j] == dest
    modifies animal, dest
    ensures world.Valid()
    ensures world.State() == Fed(old(world.State()), k, j)
    ensures world.Repr() <= old(world.Repr()) + {null}
  {
    ghost var s0, r0 := world.State(), world.Repr();
    world.CellFacts(k);
    world.CellFacts(j);
    world.OnlyHere(k, animal);
    world.SlotsInRepr();
    SpeciesEat(animal, dest);
    ghost var g := Fed(s0, k, j);
    forall m | 0 <= m < |world.grid|
      ensures world.grid[m].State() == g.cells[m]
      ensures world.grid[m].animal in r0 + {null} && world.grid[m].plant in r0 + {null}
    {
      if m != k && m != j {
        assert world.grid[m].position != world.grid[k].position && world.grid[m].position != world.grid[j].position;
        assert world.grid[m].State() == old(world.grid[m].State());
      }
    }
    world.StateIs(g);
    world.ReprWithin(r0 + {null});
    FedKeepsValid(s0, k, j);
  }

  /** What follows the payment when the animal of cell `k` has a destination `dest`, of index `j`: it eats there if it can, then moves there if the slot is free. */
  method EatAndMove(animal: Organism, world: World, k: nat, dest: Cell, ghost j: nat)
    requires world.Valid() && k < |world.grid| && j < |world.grid| && k != j
    requires world.grid[k].animal == animal && world.grid[j] == dest
    modifies world.Repr()
    ensures world.Valid()
    ensures var g := old(world.State());
      world.State() == MoveAnimal(if EaterCanEat(animal.kind, g.cells[j]) then Fed(g, k, j) else g, k, j)
    ensures world.Repr() <= old(world.Repr()) + {null}
  {
    world.CellFacts(j);
    if EaterCanEat(animal.kind, dest.State()) {
      EatAt(animal, world, k, dest, j);
    }
    world.TransferAnimal(world.grid[k], dest);
  }

  /**
   * The animal of cell `k` acting on the cell it chose: it pays for the move,
   * eats there when it can, then `transferAnimal` moves it when the slot is free.
   */
  method ActOn(animal: Organism, world: World, k: nat, dest: Cell?)
    requires world.Valid() && k < |world.grid| && world.grid[k].animal == animal
    requires dest != null ==> dest in world.Cells() && dest != world.grid[k]
    modifies world.Repr()
    ensures world.Valid()
    ensures ValidDestination(old(world.State()), k, Animals.PositionOf(dest))
    ensures world.State() == TurnTo(old(world.State()), k, Animals.PositionOf(dest))
    ensures world.Repr() <= old(world.Repr()) + {null}
  {
    ghost var g := world.State();
    world.CellFacts(k);
    if dest != null {
      world.CellFacts(world.IndexOf(dest));
    }
    PayMove(animal, world, k);
    if dest != null {
      EatAndMove(animal, world, k, dest, world.IndexOf(dest));
    }
  }

  /** The species' `chooseMove` for the animal of cell `k`: a cell of the world other than its own, or `null`. */
  method ChooseFor(world: World, random: RandomGenerator, k: nat) returns (dest: Cell?)
    requires world.Valid() && k < |world.grid| && world.grid[k].animal != null
    modifies random
    ensures var g := world.State();
      (Animals.PositionOf(dest), random.rng) == MoveOf(g.cells[k].animal.value.kind, old(random.rng), g, g.cells[k].position)
    ensures dest != null ==> dest in world.Cells() && dest != world.grid[k]
  {
    ghost var g := world.State();
    world.CellFacts(k);
    var cell := world.grid[k];
    var animal := cell.animal;
    if animal.kind == Herbivore {
      dest := Herbivores.ChooseMove(animal, world, random, cell.position);
    } else {
      dest := Carnivores.ChooseMove(animal, world, random, cell.position);
    }
    assert world.State() == g;
    MoveOfIsNeighbor(animal.kind, old(random.rng), g, cell.position);
  }

  /** One animal's turn: its species' `chooseMove`, then acting on the chosen cell. */
  method AnimalTurnAt(world: World, random: RandomGenerator, k: nat)
    requires world.Valid() && k < |world.grid| && world.grid[k].animal != null
    modifies world.Repr(), random
    ensures world.Valid()
    ensures (world.State(), random.rng) == AnimalTurn(old(random.rng), old(world.State()), k)
    ensures world.Repr() <= old(world.Repr()) + {null}
  {
    ghost var g0, r0, s0 := world.State(), world.Repr(), random.rng;
    world.ReprHoldsCellsAndOrganisms();
    assert random !in r0;
    var dest := ChooseFor(world, random, k);
    ghost var s1 := random.rng;
    assert world.State() == g0 && world.Repr() == r0;
    ActOn(world.grid[k].animal, world, k, dest);
    assert random.rng == s1;
    assert AnimalTurn(s0, g0, k) == (TurnTo(g0, k, Animals.PositionOf(dest)), s1);
  }

  /**
   * The herbivore phase (`kind` Herbivore) or the carnivore phase (`kind`
   * Carnivore): every cell that held a live animal of the species when the
   * phase began, and still does when its turn comes, takes one turn.
   */
  method AnimalPhaseRun(world: World, random: RandomGenerator, kind: Species)
    requires world.Valid()
    modifies world.Repr(), random
    ensures world.Valid()
    ensures (world.State(), random.rng) == AnimalPhase(old(random.rng), old(world.State()), kind)
    ensures world.Repr() <= old(world.Repr()) + {null}
  {
    var start := world.State();
    ghost var s0, r0 := random.rng, world.Repr();
    var k := 0;
    while k < |world.grid|
      invariant 0 <= k <= |world.grid| && world.Valid()
      invariant AnimalPhaseFrom(random.rng, start, world.State(), k, kind) == AnimalPhase(s0, start, kind)
      invariant world.Repr() <= r0 + {null}
    {
      world.CellFacts(k);
      AnimalPhaseFromStep(random.rng, start, world.State(), k, kind);
      var animal := world.grid[k].animal;
      if LiveAnimalOf(start.cells[k], kind) && animal != null && animal.kind == kind && animal.alive {
        AnimalTurnAt(world, random, k);
      }
      k := k + 1;
    }
  }

  // ---------------------------------------------------------------------------
  // Reproduction

  /** The reproduction of cell `k`: its animal's `spawn`, then its plant's. */
  method ReproduceAt(world: World, random: RandomGenerator, k: nat)
    requires world.Valid() && k < |world.grid|
    modifies world.Repr(), random
    ensures world.Valid()
    ensures (world.State(), random.rng) == ReproduceCell(old(random.rng), old(world.State()), k)
    ensures forall o :: o in world.Repr() ==> o in old(world.Repr()) || fresh(o)
  {
    world.CellFacts(k);
    var cell := world.grid[k];
    if cell.animal != null {
      var spawned := Animals.Spawn(cell.animal, world, random, k);
    }
    world.CellFacts(k);
    if cell.plant != null {
      var spawned := Plants.Spawn(cell.plant, world, random, k);
    }
  }

  /** The reproduction phase on the objects, cell by cell in row-major order. */
  method ReproductionPhaseRun(world: World, random: RandomGenerator)
    requires world.Valid()
    modifies world.Repr(), random
    ensures world.Valid()
    ensures (world.State(), random.rng) == Reproduction(old(random.rng), old(world.State()))
    ensures forall o :: o in world.Repr() ==> o in old(world.Repr()) || fresh(o)
  {
    ghost var g0 := world.State();
    ghost var s0 := random.rng;
    var k := 0;
    while k < |world.grid|
      invariant 0 <= k <= |world.grid| && world.Valid()
      invariant ReproductionFrom(random.rng, world.State(), k) == Reproduction(s0, g0)
      invariant forall o :: o in world.Repr() ==> o in old(world.Repr()) || fresh(o)
    {
      ReproduceAt(world, random, k);
      k := k + 1;
    }
  }

  // ---------------------------------------------------------------------------
  // Cleanup

  /** The cleanup phase done for the cells before `k`. */
  ghost function CleanedUpTo(g: Grid, k: nat): Grid
    requires k <= |g.cells|
  {
    g.(cells := seq(|g.cells|, (i: int) requires 0 <= i < |g.cells| => if i < k then CleanCell(g.cells[i]) else g.cells[i]))
  }

  /** The cleanup of cell `k`: a dead animal leaves its slot, then a dead plant. */
  method CleanAt(world: World, k: nat)
    requires world.Valid() && k < |world.grid|
    modifies world.grid[k]
    ensures world.Valid()
    ensures world.State() == old(world.State()).(cells := old(world.State()).cells[k := CleanCell(old(world.State()).cells[k])])
    ensures world.Repr() <= old(world.Repr()) + {null}
  {
    ghost var s0 := world.State();
    world.CellFacts(k);
    var cell := world.grid[k];
    if cell.animal != null && !cell.animal.alive {
      world.RemoveOccupant(k, AnimalSlot);
    }
    world.CellFacts(k);
    if cell.plant != null && !cell.plant.alive {
      world.RemoveOccupant(k, PlantSlot);
    }
    world.CellFacts(k);
    assert world.State().cells == s0.cells[k := CleanCell(s0.cells[k])];
  }

  /** The cleanup phase on the objects. */
  method CleanupPhaseRun(world: World)
    requires world.Valid()
    modifies world.Repr()
    ensures world.Valid()
    ensures world.State() == Cleaned(old(world.State()))
    ensures world.Repr() <= old(world.Repr()) + {null}
  {
    ghost var g0 := world.State();
    var k := 0;
    while k < |world.grid|
      invariant 0 <= k <= |world.grid| && world.Valid()
      invariant world.State() == CleanedUpTo(g0, k)
      invariant world.Repr() <= old(world.Repr()) + {null}
    {
      CleanAt(world, k);
      assert CleanedUpTo(g0, k).cells[k := CleanCell(CleanedUpTo(g0, k).cells[k])] == CleanedUpTo(g0, k + 1).cells;
      k := k + 1;
    }
    assert CleanedUpTo(g0, k).cells == Cleaned(g0).cells;
  }
}
