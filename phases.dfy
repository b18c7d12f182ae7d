/**
 * The five phases of a turn, on values. Each phase visits the cells once, in
 * row-major order: growth grows every plant; the herbivore and carnivore
 * phases let every animal of the species that was in place when the phase
 * began move (paying one unit first) and eat at its destination; the
 * reproduction phase lets every occupant try to spawn; cleanup removes the
 * dead.
 */
module Phases {
  import opened Wrappers
  import opened Positions
  import opened Organisms
  import opened Cells
  import opened Grids
  import opened Randomness
  import opened Spawning
  import opened Plants
  import opened Animals
  import Herbivores
  import Carnivores
  import Eaters

  /** Two grids of the same rectangle whose cells sit at the same positions. */
  predicate SameShape(g: Grid, r: Grid)
  {
    r.width == g.width && r.height == g.height && |r.cells| == |g.cells| &&
    forall k :: 0 <= k < |g.cells| ==> r.cells[k].position == g.cells[k].position
  }

  lemma SameShapeWellFormed(g: Grid, r: Grid)
    requires WellFormed(g) && SameShape(g, r)
    ensures WellFormed(r)
  {
  }

  /** Two well-formed grids of the same dimensions have their cells at the same positions. */
  lemma WellFormedSameShape(g: Grid, r: Grid)
    requires WellFormed(g) && WellFormed(r)
    requires r.width == g.width && r.height == g.height
    ensures SameShape(g, r)
  {
    forall k | 0 <= k < |g.cells|
      ensures r.cells[k].position == g.cells[k].position
    {
      IndexInjective(g.width, g.cells[k].position, r.cells[k].position);
    }
  }

  // ---------------------------------------------------------------------------
  // Plant growth

  /** One cell of the growth phase: its plant, if any, grows. */
  function GrowCell(c: CellState): CellState
    requires ValidCell(c)
  {
    if c.plant.Some? then c.(plant := Some(AfterGrow(c.plant.value))) else c
  }

  /** The growth phase on values: every cell grows its plant; the order does not matter, no cell looks at another. */
  function Grown(g: Grid): (r: Grid)
    requires ValidGrid(g)
    ensures SameShape(g, r)
  {
    g.(cells := seq(|g.cells|, (i: int) requires 0 <= i < |g.cells| => GrowCell(g.cells[i])))
  }

  /**
   * Growth keeps the invariant, touches no animal and neither adds nor
   * removes a plant; a living plant below its maximum gains one unit and any
   * other plant is unchanged.
   */
  lemma GrowthSpec(g: Grid)
    requires ValidGrid(g)
    ensures ValidGrid(Grown(g))
    ensures forall i :: 0 <= i < |g.cells| ==>
      Grown(g).cells[i].animal == g.cells[i].animal &&
      (Grown(g).cells[i].plant.Some? <==> g.cells[i].plant.Some?)
    ensures forall i :: 0 <= i < |g.cells| && g.cells[i].plant.Some? ==>
      var p := g.cells[i].plant.value;
      Grown(g).cells[i].plant.value ==
        (if p.alive && p.energy < MaxEnergy(Plant) then p.(energy := p.energy + 1) else p)
  {
    forall i | 0 <= i < |g.cells|
      ensures ValidCell(Grown(g).cells[i])
    {
      assert ValidCell(g.cells[i]);
    }
  }

  // ---------------------------------------------------------------------------
  // Animal turns

  /** An animal of the given species, alive, holds the animal slot of the cell. */
  predicate LiveAnimalOf(c: CellState, kind: Species)
  {
    c.animal.Some? && c.animal.value.kind == kind && c.animal.value.alive
  }

  /** An animal of `kind` acts at cell `k` when one was there as the phase began and one is still there. */
  predicate Acts(start: Grid, g: Grid, k: nat, kind: Species)
    requires k < |start.cells| && k < |g.cells|
  {
    LiveAnimalOf(start.cells[k], kind) && LiveAnimalOf(g.cells[k], kind)
  }

  /** The species' `chooseMove` for an animal at `at`. */
  function MoveOf(kind: Species, s: Rng, g: Grid, at: Position): (Option<Position>, Rng)
    requires WellFormed(g)
  {
    if kind == Herbivore then Herbivores.HerbivoreMove(s, g, at, at) else Carnivores.CarnivoreMove(s, g, at, at)
  }

  /** A chosen destination is always one of the eight cells around the animal. */
  lemma MoveOfIsNeighbor(kind: Species, s: Rng, g: Grid, at: Position)
    requires WellFormed(g)
    ensures var r := MoveOf(kind, s, g, at).0;
      r.Some? ==>
        InBounds(g.width, g.height, r.value.x, r.value.y) && r.value != at &&
        Abs(r.value.x - at.x) <= 1 && Abs(r.value.y - at.y) <= 1
  {
    if kind == Herbivore {
      Herbivores.HerbivoreMoveIsFreeNeighbor(s, g, at);
    } else {
      Carnivores.CarnivoreMoveIsNeighbor(s, g, at);
    }
  }

  /** The species' `canEat` on a cell. */
  predicate EaterCanEat(kind: Species, c: CellState)
  {
    if kind == Herbivore then Herbivores.CanEat(Some(c)) else Carnivores.CanEat(Some(c))
  }

  /** The slot an eater of `kind` eats from. */
  function MealSlot(kind: Species): Slot
  {
    if kind == Herbivore then PlantSlot else AnimalSlot
  }

  /** The species' `eat` on values: `consumePlant` for a herbivore, `consumeAnimal` for a carnivore. */
  function Meal(e: OrganismState, c: CellState): (OrganismState, CellState)
  {
    if e.kind == Herbivore then Eaters.PlantMeal(e, c) else Eaters.AnimalMeal(e, c)
  }

  /** The animal of cell `i` eats what cell `j` offers it: the eater and the target cell become what the meal makes of them. */
  function Fed(g: Grid, i: nat, j: nat): (r: Grid)
    requires i < |g.cells| && j < |g.cells| && g.cells[i].animal.Some?
    ensures r.width == g.width && r.height == g.height && |r.cells| == |g.cells|
  {
    var meal := Meal(g.cells[i].animal.value, g.cells[j]);
    var cells := g.cells[j := meal.1];
    g.(cells := cells[i := cells[i].(animal := Some(meal.0))])
  }

  /** A destination the phase can act on: in the world and not the animal's own cell. */
  predicate ValidDestination(g: Grid, i: nat, dest: Option<Position>)
    requires i < |g.cells|
  {
    dest.Some? ==> InBounds(g.width, g.height, dest.value.x, dest.value.y) && dest.value != g.cells[i].position
  }

  /**
   * The animal of cell `i` acting on its chosen destination: it pays one unit
   * of energy; then, if it has a destination, it eats there when it can and
   * moves there when the animal slot is free.
   */
  function TurnTo(g: Grid, i: nat, dest: Option<Position>): (r: Grid)
    requires WellFormed(g) && i < |g.cells| && g.cells[i].animal.Some? && ValidDestination(g, i, dest)
    ensures SameShape(g, r)
  {
    var a := g.cells[i].animal.value;
    var paid := WithSlot(g, i, AnimalSlot, Some(AfterSubEnergy(a, 1)));
    if dest.None? then paid
    else
      CellAtIndex(g, dest.value);
      var j := Index(g.width, dest.value);
      var fed := if EaterCanEat(a.kind, paid.cells[j]) then Fed(paid, i, j) else paid;
      MoveAnimal(fed, i, j)
  }

  /** One animal's turn in its phase, for the animal of cell `i`: `chooseMove`, then acting on it. */
  function AnimalTurn(s: Rng, g: Grid, i: nat): (r: (Grid, Rng))
    requires WellFormed(g) && i < |g.cells| && g.cells[i].animal.Some?
    ensures SameShape(g, r.0)
    ensures ValidGrid(g) ==> ValidGrid(r.0)
  {
    var move := MoveOf(g.cells[i].animal.value.kind, s, g, g.cells[i].position);
    MoveOfIsNeighbor(g.cells[i].animal.value.kind, s, g, g.cells[i].position);
    if ValidGrid(g) then
      TurnToKeepsValid(g, i, move.0);
      (TurnTo(g, i, move.0), move.1)
    else (TurnTo(g, i, move.0), move.1)
  }

  /** An animal's turn keeps the world invariant. */
  lemma TurnToKeepsValid(g: Grid, i: nat, dest: Option<Position>)
    requires ValidGrid(g) && i < |g.cells| && g.cells[i].animal.Some? && ValidDestination(g, i, dest)
    ensures ValidGrid(TurnTo(g, i, dest))
  {
    var a := g.cells[i].animal.value;
    assert ValidCell(g.cells[i]);
    SubEnergyKeepsValid(a, 1);
    var paid := WithSlot(g, i, AnimalSlot, Some(AfterSubEnergy(a, 1)));
    WithSlotKeepsValid(g, i, AnimalSlot, Some(AfterSubEnergy(a, 1)));
    if dest.Some? {
      CellAtIndex(g, dest.value);
      var j := Index(g.width, dest.value);
      if EaterCanEat(a.kind, paid.cells[j]) {
        FedKeepsValid(paid, i, j);
        MoveAnimalKeepsValid(Fed(paid, i, j), i, j);
      } else {
        MoveAnimalKeepsValid(paid, i, j);
      }
    }
  }

  /** Eating keeps the world invariant: the meal leaves its slot and the eater stays valid. */
  lemma FedKeepsValid(g: Grid, i: nat, j: nat)
    requires ValidGrid(g) && i < |g.cells| && j < |g.cells| && i != j && g.cells[i].animal.Some?
    ensures ValidGrid(Fed(g, i, j))
  {
    assert ValidCell(g.cells[i]) && ValidCell(g.cells[j]);
    Eaters.MealBounds(g.cells[i].animal.value, g.cells[j]);
    var r := Fed(g, i, j);
    assert ValidCell(r.cells[i]) && ValidCell(r.cells[j]);
    assert forall k :: 0 <= k < |g.cells| && k != i && k != j ==> r.cells[k] == g.cells[k];
  }

  /** A blocked animal (no destination) stays where it is and loses exactly one unit; nothing else changes. */
  lemma BlockedAnimalPays(g: Grid, i: nat)
    requires ValidGrid(g) && i < |g.cells| && g.cells[i].animal.Some? && g.cells[i].animal.value.alive
    ensures var a := g.cells[i].animal.value;
      var r := TurnTo(g, i, None);
      r.cells[i].animal.Some? && r.cells[i].animal.value.energy == a.energy - 1 &&
      r.cells[i].animal.value.position == a.position && r.cells[i].plant == g.cells[i].plant &&
      forall k :: 0 <= k < |g.cells| && k != i ==> r.cells[k] == g.cells[k]
  {
    assert ValidCell(g.cells[i]);
  }

  /**
   * An animal that reaches a destination whose animal slot is free and where
   * it can eat pays one unit before gaining the meal's nutrition, capped at
   * its maximum; it ends in that cell, its old cell has no animal and the
   * meal is gone.
   */
  lemma EaterPaysThenGains(g: Grid, i: nat, q: Position)
    requires ValidGrid(g) && i < |g.cells| && g.cells[i].animal.Some? && g.cells[i].animal.value.kind == Herbivore
    requires g.cells[i].animal.value.energy >= 2 && ValidDestination(g, i, Some(q))
    requires CellAt(g, q).value.plant.Some? && CellAt(g, q).value.animal.None?
    ensures var a := g.cells[i].animal.value;
      var r := TurnTo(g, i, Some(q));
      var j := Index(g.width, q);
      0 <= j < |g.cells| && j != i &&
      r.cells[j].animal == Some(a.(energy := Min(MaxEnergy(a.kind), a.energy - 1 + g.cells[j].plant.value.energy), position := Some(q))) &&
      r.cells[j].plant.None? && r.cells[i].animal.None?
  {
    assert ValidCell(g.cells[i]);
    CellAtIndex(g, q);
    var j := Index(g.width, q);
    assert ValidCell(g.cells[j]);
  }

  /** The carnivore's version: it pays one unit, then gains the herbivore's energy, and takes the herbivore's place. */
  lemma HunterPaysThenGains(g: Grid, i: nat, q: Position)
    requires ValidGrid(g) && i < |g.cells| && g.cells[i].animal.Some? && g.cells[i].animal.value.kind == Carnivore
    requires g.cells[i].animal.value.energy >= 2 && ValidDestination(g, i, Some(q))
    requires CellAt(g, q).value.animal.Some? && CellAt(g, q).value.animal.value.kind == Herbivore
    ensures var a := g.cells[i].animal.value;
      var r := TurnTo(g, i, Some(q));
      var j := Index(g.width, q);
      0 <= j < |g.cells| && j != i &&
      r.cells[j].animal == Some(a.(energy := Min(MaxEnergy(a.kind), a.energy - 1 + g.cells[j].animal.value.energy), position := Some(q))) &&
      r.cells[j].plant == g.cells[j].plant && r.cells[i].animal.None?
  {
    assert ValidCell(g.cells[i]);
    CellAtIndex(g, q);
    var j := Index(g.width, q);
    assert ValidCell(g.cells[j]);
  }

  /** A herbivore's turn never adds or removes an animal. */
  lemma HerbivoreTurnKeepsAnimals(g: Grid, i: nat, dest: Option<Position>)
    requires WellFormed(g) && i < |g.cells| && g.cells[i].animal.Some? && g.cells[i].animal.value.kind == Herbivore
    requires ValidDestination(g, i, dest)
    ensures Count(TurnTo(g, i, dest).cells, AnimalSlot) == Count(g.cells, AnimalSlot)
  {
    var a := g.cells[i].animal.value;
    var paid := WithSlot(g, i, AnimalSlot, Some(AfterSubEnergy(a, 1)));
    WithSlotCount(g, i, AnimalSlot, Some(AfterSubEnergy(a, 1)), AnimalSlot);
    if dest.Some? {
      CellAtIndex(g, dest.value);
      var j := Index(g.width, dest.value);
      var fed := if EaterCanEat(a.kind, paid.cells[j]) then Fed(paid, i, j) else paid;
      if EaterCanEat(a.kind, paid.cells[j]) {
        var meal := Meal(paid.cells[i].animal.value, paid.cells[j]);
        var cells := paid.cells[j := meal.1];
        CountUpdate(paid.cells, j, meal.1, AnimalSlot);
        CountUpdate(cells, i, cells[i].(animal := Some(meal.0)), AnimalSlot);
      }
      MoveAnimalKeepsPopulation(fed, i, j, AnimalSlot);
    }
  }

  /** The turn of cell `i`: the species' move, then acting on the destination it names. */
  lemma AnimalTurnIs(s: Rng, g: Grid, i: nat)
    requires WellFormed(g) && i < |g.cells| && g.cells[i].animal.Some?
    ensures var move := MoveOf(g.cells[i].animal.value.kind, s, g, g.cells[i].position);
      ValidDestination(g, i, move.0) && AnimalTurn(s, g, i) == (TurnTo(g, i, move.0), move.1)
  {
    MoveOfIsNeighbor(g.cells[i].animal.value.kind, s, g, g.cells[i].position);
  }

  /** A carnivore's turn leaves every plant exactly where and as it was. */
  lemma CarnivoreTurnKeepsPlants(s: Rng, g: Grid, i: nat)
    requires WellFormed(g) && i < |g.cells| && g.cells[i].animal.Some? && g.cells[i].animal.value.kind == Carnivore
    ensures forall k :: 0 <= k < |g.cells| ==> AnimalTurn(s, g, i).0.cells[k].plant == g.cells[k].plant
  {
    AnimalTurnIs(s, g, i);
    CarnivoreTurnToKeepsPlants(g, i, MoveOf(Carnivore, s, g, g.cells[i].position).0);
  }

  /** Acting on any valid destination, a carnivore leaves every plant as it was. */
  lemma CarnivoreTurnToKeepsPlants(g: Grid, i: nat, dest: Option<Position>)
    requires WellFormed(g) && i < |g.cells| && g.cells[i].animal.Some? && g.cells[i].animal.value.kind == Carnivore
    requires ValidDestination(g, i, dest)
    ensures forall k :: 0 <= k < |g.cells| ==> TurnTo(g, i, dest).cells[k].plant == g.cells[k].plant
  {
    if dest.Some? {
      CellAtIndex(g, dest.value);
    }
  }

  // ---------------------------------------------------------------------------
  // Animal phases

  /** The animal phase of species `kind` from cell `k` on, against the snapshot `start` taken as the phase began. */
  function AnimalPhaseFrom(s: Rng, start: Grid, g: Grid, k: nat, kind: Species): (r: (Grid, Rng))
    requires WellFormed(g) && |start.cells| == |g.cells| && k <= |g.cells|
    ensures SameShape(g, r.0)
    decreases |g.cells| - k
  {
    if k == |g.cells| then (g, s)
    else if Acts(start, g, k, kind) then
      var turn := AnimalTurn(s, g, k);
      SameShapeWellFormed(g, turn.0);
      AnimalPhaseFrom(turn.1, start, turn.0, k + 1, kind)
    else AnimalPhaseFrom(s, start, g, k + 1, kind)
  }

  /** The herbivore phase (`kind` Herbivore) or the carnivore phase (`kind` Carnivore) on values. */
  function AnimalPhase(s: Rng, g: Grid, kind: Species): (r: (Grid, Rng))
    requires WellFormed(g)
    ensures SameShape(g, r.0)
  {
    AnimalPhaseFrom(s, g, g, 0, kind)
  }

  /** One step of an animal phase: the turn of cell `k` if it acts, then the phase from `k + 1`. */
  lemma AnimalPhaseFromStep(s: Rng, start: Grid, g: Grid, k: nat, kind: Species)
    requires WellFormed(g) && |start.cells| == |g.cells| && k < |g.cells|
    ensures Acts(start, g, k, kind) ==>
      WellFormed(AnimalTurn(s, g, k).0) &&
      AnimalPhaseFrom(s, start, g, k, kind) == AnimalPhaseFrom(AnimalTurn(s, g, k).1, start, AnimalTurn(s, g, k).0, k + 1, kind)
    ensures !Acts(start, g, k, kind) ==> AnimalPhaseFrom(s, start, g, k, kind) == AnimalPhaseFrom(s, start, g, k + 1, kind)
  {
    if Acts(start, g, k, kind) {
      SameShapeWellFormed(g, AnimalTurn(s, g, k).0);
    }
  }

  /** Every animal phase keeps the world invariant. */
  lemma {:induction false} AnimalPhaseFromKeepsValid(s: Rng, start: Grid, g: Grid, k: nat, kind: Species)
    requires ValidGrid(g) && |start.cells| == |g.cells| && k <= |g.cells|
    ensures ValidGrid(AnimalPhaseFrom(s, start, g, k, kind).0)
    decreases |g.cells| - k
  {
    if k < |g.cells| {
      AnimalPhaseFromStep(s, start, g, k, kind);
      if Acts(start, g, k, kind) {
        var t := AnimalTurn(s, g, k);
        AnimalPhaseFromKeepsValid(t.1, start, t.0, k + 1, kind);
      } else {
        AnimalPhaseFromKeepsValid(s, start, g, k + 1, kind);
      }
    }
  }

  /** The herbivore phase keeps the number of animals. */
  lemma {:induction false} HerbivorePhaseFromKeepsAnimals(s: Rng, start: Grid, g: Grid, k: nat)
    requires WellFormed(g) && |start.cells| == |g.cells| && k <= |g.cells|
    ensures Count(AnimalPhaseFrom(s, start, g, k, Herbivore).0.cells, AnimalSlot) == Count(g.cells, AnimalSlot)
    decreases |g.cells| - k
  {
    if k < |g.cells| {
      AnimalPhaseFromStep(s, start, g, k, Herbivore);
      if Acts(start, g, k, Herbivore) {
        var t := AnimalTurn(s, g, k);
        MoveOfIsNeighbor(Herbivore, s, g, g.cells[k].position);
        HerbivoreTurnKeepsAnimals(g, k, MoveOf(Herbivore, s, g, g.cells[k].position).0);
        HerbivorePhaseFromKeepsAnimals(t.1, start, t.0, k + 1);
      } else {
        HerbivorePhaseFromKeepsAnimals(s, start, g, k + 1);
      }
    }
  }

  /** The carnivore phase leaves every plant exactly where and as it was. */
  lemma {:induction false} CarnivorePhaseFromKeepsPlants(s: Rng, start: Grid, g: Grid, k: nat)
    requires WellFormed(g) && |start.cells| == |g.cells| && k <= |g.cells|
    ensures forall m :: 0 <= m < |g.cells| ==> AnimalPhaseFrom(s, start, g, k, Carnivore).0.cells[m].plant == g.cells[m].plant
    decreases |g.cells| - k
  {
    if k < |g.cells| {
      AnimalPhaseFromStep(s, start, g, k, Carnivore);
      if Acts(start, g, k, Carnivore) {
        var t := AnimalTurn(s, g, k);
        CarnivoreTurnKeepsPlants(s, g, k);
        CarnivorePhaseFromKeepsPlants(t.1, start, t.0, k + 1);
      } else {
        CarnivorePhaseFromKeepsPlants(s, start, g, k + 1);
      }
    }
  }

  /** A phase over a world without a live animal of the species changes nothing and draws nothing. */
  lemma {:induction false} AnimalPhaseFromIdle(s: Rng, start: Grid, g: Grid, k: nat, kind: Species)
    requires WellFormed(g) && |start.cells| == |g.cells| && k <= |g.cells|
    requires forall m :: k <= m < |g.cells| ==> !LiveAnimalOf(start.cells[m], kind)
    ensures AnimalPhaseFrom(s, start, g, k, kind) == (g, s)
    decreases |g.cells| - k
  {
    if k < |g.cells| {
      AnimalPhaseFromIdle(s, start, g, k + 1, kind);
    }
  }

  // ---------------------------------------------------------------------------
  // Reproduction

  /** The reproduction of cell `k`: its animal tries to spawn, then its plant. */
  function ReproduceCell(s: Rng, g: Grid, k: nat): (r: (Grid, Rng))
    requires ValidGrid(g) && k < |g.cells|
    ensures ValidGrid(r.0) && r.0.width == g.width && r.0.height == g.height
  {
    var (g1, s1) :=
      if g.cells[k].animal.Some? then
        var a := AnimalSpawned(s, g, k);
        AnimalSpawnEffect(s, g, k);
        (a.0, a.1)
      else (g, s);
    if g1.cells[k].plant.Some? then
      var p := PlantSpawned(s1, g1, k);
      PlantSpawnEffect(s1, g1, k);
      (p.0, p.1)
    else (g1, s1)
  }

  /** The reproduction phase from cell `k` on. Newborns are below every threshold, so visiting them spawns nothing. */
  function ReproductionFrom(s: Rng, g: Grid, k: nat): (r: (Grid, Rng))
    requires ValidGrid(g) && k <= |g.cells|
    ensures ValidGrid(r.0) && r.0.width == g.width && r.0.height == g.height
    decreases |g.cells| - k
  {
    if k == |g.cells| then (g, s)
    else
      var (g', s') := ReproduceCell(s, g, k);
      ReproductionFrom(s', g', k + 1)
  }

  /** The reproduction phase on values. */
  function Reproduction(s: Rng, g: Grid): (r: (Grid, Rng))
    requires ValidGrid(g)
    ensures ValidGrid(r.0) && r.0.width == g.width && r.0.height == g.height
  {
    ReproductionFrom(s, g, 0)
  }

  /** No occupant has the energy to reproduce. */
  predicate NoneReady(g: Grid)
  {
    forall k :: 0 <= k < |g.cells| ==>
      (g.cells[k].animal.Some? ==> !HasReproductionEnergy(g.cells[k].animal.value)) &&
      (g.cells[k].plant.Some? ==> !HasReproductionEnergy(g.cells[k].plant.value))
  }

  /** Reproduction never removes an organism of either kind. */
  lemma ReproduceCellGrows(s: Rng, g: Grid, k: nat)
    requires ValidGrid(g) && k < |g.cells|
    ensures Count(ReproduceCell(s, g, k).0.cells, AnimalSlot) >= Count(g.cells, AnimalSlot)
    ensures Count(ReproduceCell(s, g, k).0.cells, PlantSlot) >= Count(g.cells, PlantSlot)
  {
    var (g1, s1) := if g.cells[k].animal.Some? then (AnimalSpawned(s, g, k).0, AnimalSpawned(s, g, k).1) else (g, s);
    if g.cells[k].animal.Some? {
      AnimalSpawnEffect(s, g, k);
    }
    if g1.cells[k].plant.Some? {
      PlantSpawnEffect(s1, g1, k);
    }
  }

  /** The reproduction phase never removes an organism of either kind. */
  lemma {:induction false} ReproductionFromGrows(s: Rng, g: Grid, k: nat)
    requires ValidGrid(g) && k <= |g.cells|
    ensures Count(ReproductionFrom(s, g, k).0.cells, AnimalSlot) >= Count(g.cells, AnimalSlot)
    ensures Count(ReproductionFrom(s, g, k).0.cells, PlantSlot) >= Count(g.cells, PlantSlot)
    decreases |g.cells| - k
  {
    if k < |g.cells| {
      var (g', s') := ReproduceCell(s, g, k);
      ReproduceCellGrows(s, g, k);
      ReproductionFromGrows(s', g', k + 1);
    }
  }

  /** With no occupant of the cell ready, its reproduction changes nothing and draws nothing. */
  lemma ReproduceCellIdle(s: Rng, g: Grid, k: nat)
    requires ValidGrid(g) && k < |g.cells| && NoneReady(g)
    ensures ReproduceCell(s, g, k) == (g, s)
  {
  }

  /** Below every threshold the reproduction phase produces no offspring and leaves every parent as it was. */
  lemma {:induction false} ReproductionFromIdle(s: Rng, g: Grid, k: nat)
    requires ValidGrid(g) && k <= |g.cells| && NoneReady(g)
    ensures ReproductionFrom(s, g, k) == (g, s)
    decreases |g.cells| - k
  {
    if k < |g.cells| {
      ReproduceCellIdle(s, g, k);
      ReproductionFromIdle(s, g, k + 1);
    }
  }

  // ---------------------------------------------------------------------------
  // Cleanup

  /** An occupant slot after cleanup: the dead are dropped. */
  function Survivor(o: Option<OrganismState>): Option<OrganismState>
  {
    if o.Some? && !o.value.alive then None else o
  }

  function CleanCell(c: CellState): CellState
  {
    c.(animal := Survivor(c.animal), plant := Survivor(c.plant))
  }

  /** The cleanup phase on values. */
  function Cleaned(g: Grid): (r: Grid)
    ensures r.width == g.width && r.height == g.height && |r.cells| == |g.cells|
  {
    g.(cells := seq(|g.cells|, (i: int) requires 0 <= i < |g.cells| => CleanCell(g.cells[i])))
  }

  /**
   * Cleanup removes exactly the occupants whose energy is 0 and keeps every
   * live one as it is; the invariant holds afterwards.
   */
  lemma CleanupSpec(g: Grid)
    requires ValidGrid(g)
    ensures ValidGrid(Cleaned(g))
    ensures forall i :: 0 <= i < |g.cells| ==>
      (Cleaned(g).cells[i].animal.Some? <==> g.cells[i].animal.Some? && g.cells[i].animal.value.energy > 0) &&
      (Cleaned(g).cells[i].plant.Some? <==> g.cells[i].plant.Some? && g.cells[i].plant.value.energy > 0) &&
      (Cleaned(g).cells[i].animal.Some? ==> Cleaned(g).cells[i].animal == g.cells[i].animal) &&
      (Cleaned(g).cells[i].plant.Some? ==> Cleaned(g).cells[i].plant == g.cells[i].plant)
  {
    forall i | 0 <= i < |g.cells|
      ensures ValidCell(Cleaned(g).cells[i])
    {
      assert ValidCell(g.cells[i]);
    }
  }

  /** A second cleanup with nothing newly dead changes nothing. */
  lemma CleanupIdempotent(g: Grid)
    ensures Cleaned(Cleaned(g)) == Cleaned(g)
  {
  }

  /** Cleanup over a world with no occupant at all is a no-op. */
  lemma CleanupOfEmptyWorld(g: Grid)
    requires IsEmptyGrid(g)
    ensures Cleaned(g) == g
  {
    assert Cleaned(g).cells == g.cells;
  }

  /** Cleanup never adds an organism. */
  lemma {:induction false} CleanupCount(cells: seq<CellState>, slot: Slot)
    ensures Count(seq(|cells|, (i: int) requires 0 <= i < |cells| => CleanCell(cells[i])), slot) <= Count(cells, slot)
    decreases |cells|
  {
    if cells != [] {
      var cleaned := seq(|cells|, (i: int) requires 0 <= i < |cells| => CleanCell(cells[i]));
      CleanupCount(cells[1..], slot);
      assert cleaned[1..] == seq(|cells[1..]|, (i: int) requires 0 <= i < |cells[1..]| => CleanCell(cells[1..][i]));
    }
  }
}
