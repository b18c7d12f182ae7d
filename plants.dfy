/**
 * `Plant.canReproduce` and `Plant.spawn`. A plant may reproduce when it is
 * alive at its maximum energy and one of its eight neighbours has a free plant
 * slot, but the child is only ever placed in a cardinal neighbour: with only a
 * diagonal free, `canReproduce` holds and `spawn` still fails, leaving the
 * parent as it was.
 */
module Plants {
  import opened Wrappers
  import opened Positions
  import opened Organisms
  import opened Cells
  import opened Grids
  import opened Worlds
  import opened Randomness
  import opened Spawning

  /** `canReproduce` for the plant `o` standing at `at`. */
  predicate PlantCanReproduce(g: Grid, at: Position, o: OrganismState)
    requires WellFormed(g)
  {
    HasReproductionEnergy(o) && Candidates(g, NeighborPositions(g.width, g.height, at, true), EmptyPlant) != []
  }

  /** What `canReproduce` demands, stated on the grid: alive, energy 3, and a free plant slot at Chebyshev distance 1. */
  lemma PlantCanReproduceMeans(g: Grid, at: Position, o: OrganismState)
    requires WellFormed(g) && o.kind == Plant
    ensures PlantCanReproduce(g, at, o) <==>
      o.alive && o.energy == MaxEnergy(Plant) &&
      exists q: Position :: InBounds(g.width, g.height, q.x, q.y) && q != at && Abs(q.x - at.x) <= 1 && Abs(q.y - at.y) <= 1 &&
        CellAt(g, q).value.plant.None?
  {
    FreePlantNeighbor(g, at);
  }

  /** Some neighbour of `at` at Chebyshev distance 1 has a free plant slot exactly when the scan finds one. */
  lemma FreePlantNeighbor(g: Grid, at: Position)
    requires WellFormed(g)
    ensures Candidates(g, NeighborPositions(g.width, g.height, at, true), EmptyPlant) != [] <==>
      exists q: Position :: InBounds(g.width, g.height, q.x, q.y) && q != at && Abs(q.x - at.x) <= 1 && Abs(q.y - at.y) <= 1 &&
        CellAt(g, q).value.plant.None?
  {
    var ns := NeighborPositions(g.width, g.height, at, true);
    CandidatesNonEmpty(g, ns, EmptyPlant);
    forall q: Position
      ensures q in ns <==> InBounds(g.width, g.height, q.x, q.y) && q != at && Abs(q.x - at.x) <= 1 && Abs(q.y - at.y) <= 1
    {
      NeighborPositionsMembership(g.width, g.height, at, true, q);
    }
  }

  /** `spawn` for the plant of cell `i` on values: the species check, then the shared placement. */
  function PlantSpawned(s: Rng, g: Grid, i: nat): (r: (Grid, Rng, bool))
    requires ValidGrid(g) && i < |g.cells| && g.cells[i].plant.Some?
    ensures r.0.width == g.width && r.0.height == g.height && |r.0.cells| == |g.cells|
  {
    var p := g.cells[i].plant.value;
    if PlantCanReproduce(g, g.cells[i].position, p) then Spawned(s, g, i, PlantSlot) else (g, s, false)
  }

  /** A plant's `spawn` succeeds exactly when the plant may reproduce and a cardinal neighbour has a free plant slot. */
  lemma PlantSpawnSucceedsIff(s: Rng, g: Grid, i: nat)
    requires ValidGrid(g) && i < |g.cells| && g.cells[i].plant.Some?
    ensures PlantSpawned(s, g, i).2 <==>
      PlantCanReproduce(g, g.cells[i].position, g.cells[i].plant.value) &&
      exists q :: q in Neighborhood(g.cells[i].position, g.width, g.height, 1).value && CellAt(g, q).Some? && CellAt(g, q).value.plant.None?
  {
    if PlantCanReproduce(g, g.cells[i].position, g.cells[i].plant.value) {
      var ns := Neighborhood(g.cells[i].position, g.width, g.height, 1).value;
      SpawnedIffCardinalSpace(s, g, i, PlantSlot);
      assert SpawnFilter(PlantSlot) == EmptyPlant && PlantSpawned(s, g, i) == Spawned(s, g, i, PlantSlot);
      if PlantSpawned(s, g, i).2 {
        var q :| q in ns && CellAt(g, q).Some? && MatchesFilter(CellAt(g, q).value, EmptyPlant);
        assert CellAt(g, q).value.plant.None?;
      }
      if exists q :: q in ns && CellAt(g, q).Some? && CellAt(g, q).value.plant.None? {
        var q :| q in ns && CellAt(g, q).Some? && CellAt(g, q).value.plant.None?;
        assert MatchesFilter(CellAt(g, q).value, EmptyPlant);
      }
    }
  }

  /**
   * After a plant's `spawn` the grid is still valid. On success there is one
   * plant more, the animals are untouched and the parent is back at energy 1;
   * on failure the grid and the generator are unchanged.
   */
  lemma PlantSpawnEffect(s: Rng, g: Grid, i: nat)
    requires ValidGrid(g) && i < |g.cells| && g.cells[i].plant.Some?
    ensures ValidGrid(PlantSpawned(s, g, i).0)
    ensures PlantSpawned(s, g, i).2 ==>
      Count(PlantSpawned(s, g, i).0.cells, PlantSlot) == Count(g.cells, PlantSlot) + 1 &&
      Count(PlantSpawned(s, g, i).0.cells, AnimalSlot) == Count(g.cells, AnimalSlot) &&
      PlantSpawned(s, g, i).0.cells[i].plant == Some(g.cells[i].plant.value.(energy := 1))
    ensures !PlantSpawned(s, g, i).2 ==> PlantSpawned(s, g, i).0 == g && PlantSpawned(s, g, i).1 == s
  {
    if PlantCanReproduce(g, g.cells[i].position, g.cells[i].plant.value) {
      SpawnedKeepsValid(s, g, i, PlantSlot);
      assert ValidCell(g.cells[i]);
      if Spawned(s, g, i, PlantSlot).2 {
        SpawnedEffect(s, g, i, PlantSlot, AnimalSlot);
      }
    }
  }

  /** With energy 3, no free cardinal plant slot but a free diagonal one, `canReproduce` holds and `spawn` fails, changing nothing. */
  lemma DiagonalRoomIsNotEnough(s: Rng, g: Grid, i: nat)
    requires ValidGrid(g) && i < |g.cells| && g.cells[i].plant.Some?
    requires PlantCanReproduce(g, g.cells[i].position, g.cells[i].plant.value)
    requires forall q :: q in Neighborhood(g.cells[i].position, g.width, g.height, 1).value ==> CellAt(g, q).Some? && CellAt(g, q).value.plant.Some?
    ensures PlantSpawned(s, g, i) == (g, s, false)
  {
    PlantSpawnSucceedsIff(s, g, i);
    PlantSpawnEffect(s, g, i);
    forall q | q in Neighborhood(g.cells[i].position, g.width, g.height, 1).value
      ensures CellAt(g, q).Some?
    {
      NeighborhoodMembership(g.cells[i].position, g.width, g.height, 1, q);
    }
  }

  /** `spawn` on the objects, for the plant held by cell `k`. */
  method Spawn(plant: Organism, world: World, random: RandomGenerator, ghost k: nat) returns (spawned: bool)
    requires world.Valid() && k < |world.grid| && world.grid[k].plant == plant
    modifies world.Repr(), random
    ensures world.Valid()
    ensures (world.State(), random.rng, spawned) == PlantSpawned(old(random.rng), old(world.State()), k)
    ensures forall o :: o in world.Repr() ==> o in old(world.Repr()) || fresh(o)
  {
    world.CellFacts(k);
    var g := world.State();
    if !PlantCanReproduce(g, plant.position.value, plant.State()) {
      return false;
    }
    spawned := PlaceChild(plant, world, random, k);
  }
}
