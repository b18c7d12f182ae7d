/**
 * What `Animal` gives both species: perception through the vision pattern of
 * the species' vision level, the default random move inside it, and `spawn`,
 * gated by the energy threshold alone and costing the parent half its energy.
 */
module Animals {
  import opened Wrappers
  import opened Positions
  import opened Organisms
  import opened Cells
  import opened Grids
  import opened Worlds
  import opened Randomness
  import opened Spawning

  /** `perceive`: the positions of the vision pattern around `at`, clipped to the world. */
  function Perceived(width: Coord, height: Coord, at: Position, kind: Species): seq<Position>
    requires IsAnimal(kind)
  {
    Neighborhood(at, width, height, VisionRange(kind)).value
  }

  /** A herbivore sees the 3x3 square around it, a carnivore the 5x5 square; never its own cell, never outside the world. */
  lemma PerceivedMembership(width: Coord, height: Coord, at: Position, kind: Species, q: Position)
    requires IsAnimal(kind)
    ensures q in Perceived(width, height, at, kind) <==>
      InBounds(width, height, q.x, q.y) && q != at &&
      Abs(q.x - at.x) <= VisionRange(kind) - 1 && Abs(q.y - at.y) <= VisionRange(kind) - 1
  {
    NeighborhoodMembership(at, width, height, VisionRange(kind), q);
  }

  /** The position of the cell a `chooseMove` returns, `None` for `null`. */
  function PositionOf(c: Cell?): Option<Position>
  {
    if c == null then None else Some(c.position)
  }

  /** The default `chooseMove` on values: a random completely empty cell inside the vision pattern. */
  function DefaultMove(s: Rng, g: Grid, at: Position, kind: Species): (r: (Option<Position>, Rng))
    requires WellFormed(g) && IsAnimal(kind)
    ensures r.0.None? <==> Candidates(g, Perceived(g.width, g.height, at, kind), Empty) == []
    ensures r.0.Some? ==>
      r.0.value in Perceived(g.width, g.height, at, kind) &&
      CellAt(g, r.0.value).Some? && CellAt(g, r.0.value).value.IsCompletelyEmpty()
    ensures r.0.None? ==> r.1 == s
  {
    var (q, s') := RandomNeighborOf(s, g, at, VisionRange(kind), Empty);
    if q.Ok? && q.value.Some? then RandomNeighborIsMatchingNeighbor(s, g, at, VisionRange(kind), Empty); (q.value, s')
    else (None, s)
  }

  /** The default `chooseMove` on the objects: the chosen cell of the world, or `null`. */
  method DefaultChooseMove(animal: Organism, world: World, random: RandomGenerator, pos: Position) returns (dest: Cell?)
    requires world.Valid() && IsAnimal(animal.kind)
    modifies random
    ensures (PositionOf(dest), random.rng) == DefaultMove(old(random.rng), world.State(), pos, animal.kind)
    ensures dest != null ==> dest in world.Cells()
  {
    var q := random.RandomNeighborInRange(pos, world, VisionRange(animal.kind));
    if q.Ok? && q.value.Some? {
      RandomNeighborIsMatchingNeighbor(old(random.rng), world.State(), pos, VisionRange(animal.kind), Empty);
      dest := world.GetCell(q.value.value);
    } else {
      dest := null;
    }
  }

  /** `spawn` for the animal of cell `i` on values: the energy threshold, then the shared placement. */
  function AnimalSpawned(s: Rng, g: Grid, i: nat): (r: (Grid, Rng, bool))
    requires ValidGrid(g) && i < |g.cells| && g.cells[i].animal.Some?
    ensures r.0.width == g.width && r.0.height == g.height && |r.0.cells| == |g.cells|
  {
    if HasReproductionEnergy(g.cells[i].animal.value) then Spawned(s, g, i, AnimalSlot) else (g, s, false)
  }

  /** An animal's `spawn` succeeds exactly when it is at its threshold and a cardinal neighbour has a free animal slot. */
  lemma AnimalSpawnSucceedsIff(s: Rng, g: Grid, i: nat)
    requires ValidGrid(g) && i < |g.cells| && g.cells[i].animal.Some?
    ensures AnimalSpawned(s, g, i).2 <==>
      var a := g.cells[i].animal.value;
      a.alive && a.energy >= ReproductionThreshold(a.kind) &&
      exists q :: q in Neighborhood(g.cells[i].position, g.width, g.height, 1).value && CellAt(g, q).Some? && CellAt(g, q).value.animal.None?
  {
    assert ValidCell(g.cells[i]);
    if HasReproductionEnergy(g.cells[i].animal.value) {
      SpawnedIffCardinalSpace(s, g, i, AnimalSlot);
    }
  }

  /**
   * After an animal's `spawn` the grid is still valid. On success there is
   * one animal more, the plants are untouched and the parent keeps
   * `e - e / 2`; on failure the grid and the generator are unchanged.
   */
  lemma AnimalSpawnEffect(s: Rng, g: Grid, i: nat)
    requires ValidGrid(g) && i < |g.cells| && g.cells[i].animal.Some?
    ensures ValidGrid(AnimalSpawned(s, g, i).0)
    ensures AnimalSpawned(s, g, i).2 ==>
      var e := g.cells[i].animal.value.energy;
      Count(AnimalSpawned(s, g, i).0.cells, AnimalSlot) == Count(g.cells, AnimalSlot) + 1 &&
      Count(AnimalSpawned(s, g, i).0.cells, PlantSlot) == Count(g.cells, PlantSlot) &&
      AnimalSpawned(s, g, i).0.cells[i].animal == Some(g.cells[i].animal.value.(energy := e - e / 2))
    ensures !AnimalSpawned(s, g, i).2 ==> AnimalSpawned(s, g, i).0 == g && AnimalSpawned(s, g, i).1 == s
  {
    if HasReproductionEnergy(g.cells[i].animal.value) {
      SpawnedKeepsValid(s, g, i, AnimalSlot);
      assert ValidCell(g.cells[i]);
      if Spawned(s, g, i, AnimalSlot).2 {
        SpawnedEffect(s, g, i, AnimalSlot, PlantSlot);
      }
    }
  }

  /** The child of a successful `spawn` is of the parent's species, unharmed, at its default energy, in a cardinal neighbour. */
  lemma AnimalSpawnChild(s: Rng, g: Grid, i: nat)
    requires ValidGrid(g) && i < |g.cells| && g.cells[i].animal.Some?
    requires AnimalSpawned(s, g, i).2
    ensures exists j ::
      0 <= j < |g.cells| && j != i &&
      Distance(g.cells[j].position, g.cells[i].position) == 1 && g.cells[j].animal.None? &&
      AnimalSpawned(s, g, i).0.cells[j].animal == Some(OrganismState(g.cells[i].animal.value.kind, DefaultEnergy(g.cells[i].animal.value.kind), true, Some(g.cells[j].position)))
  {
    SpawnedEffect(s, g, i, AnimalSlot, PlantSlot);
  }

  /** `spawn` on the objects, for the animal held by cell `k`; `canReproduce` is the energy check. */
  method Spawn(animal: Organism, world: World, random: RandomGenerator, ghost k: nat) returns (spawned: bool)
    requires world.Valid() && k < |world.grid| && world.grid[k].animal == animal
    modifies world.Repr(), random
    ensures world.Valid()
    ensures (world.State(), random.rng, spawned) == AnimalSpawned(old(random.rng), old(world.State()), k)
    ensures forall o :: o in world.Repr() ==> o in old(world.Repr()) || fresh(o)
  {
    world.CellFacts(k);
    if !HasReproductionEnergy(animal.State()) {
      return false;
    }
    spawned := PlaceChild(animal, world, random, k);
  }
}
