/**
 * The placement half of `spawn`, shared by plants and animals: once the
 * species' own `canReproduce` holds, a free cardinal neighbour of the right
 * slot is drawn; if there is none nothing changes, otherwise a newborn of the
 * parent's species, placed there, appears in that slot and the parent pays.
 */
module Spawning {
  import opened Wrappers
  import opened Positions
  import opened Organisms
  import opened Cells
  import opened Grids
  import opened Worlds
  import opened Randomness

  /** The slot an organism of `kind` lives in. */
  function SlotFor(kind: Species): Slot
  {
    if kind == Plant then PlantSlot else AnimalSlot
  }

  /** A newborn needs the slot of its own kind to be free. */
  function SpawnFilter(slot: Slot): NeighborFilter
  {
    if slot == AnimalSlot then EmptyAnimal else EmptyPlant
  }

  /** The newborn placed at `q`. */
  function Newborn(kind: Species, q: Position): (o: OrganismState)
    ensures ValidOccupant(o, q, kind == Plant)
  {
    Offspring(kind).(position := Some(q))
  }

  /** The free cardinal neighbour `spawn` draws for the parent of slot `slot` of cell `i`. */
  function SpawnTarget(s: Rng, g: Grid, i: nat, slot: Slot): (r: (Option<Position>, Rng))
    requires WellFormed(g) && i < |g.cells|
    ensures r.0.None? ==> r.1 == s
    ensures r.0.Some? ==>
      InBounds(g.width, g.height, r.0.value.x, r.0.value.y) &&
      Distance(r.0.value, g.cells[i].position) == 1 &&
      MatchesFilter(CellAt(g, r.0.value).value, SpawnFilter(slot))
  {
    var at := g.cells[i].position;
    var (q, s') := RandomNeighborOf(s, g, at, 1, SpawnFilter(slot));
    if q.Err? || q.value.None? then (None, s)
    else
      RandomNeighborIsMatchingNeighbor(s, g, at, 1, SpawnFilter(slot));
      NeighborhoodMembership(at, g.width, g.height, 1, q.value.value);
      (q.value, s')
  }

  /**
   * The grid after a successful draw: the newborn in cell `j`, and the
   * parent of cell `i`, a plant reset to 1 or an animal halved.
   */
  function PlaceNewborn(g: Grid, i: nat, j: nat, slot: Slot): (r: Grid)
    requires ValidGrid(g) && i < |g.cells| && j < |g.cells|
    requires SlotOf(g.cells[i], slot).Some? && HasReproductionEnergy(SlotOf(g.cells[i], slot).value)
    ensures r.width == g.width && r.height == g.height && |r.cells| == |g.cells|
  {
    var parent := SlotOf(g.cells[i], slot).value;
    assert ValidCell(g.cells[i]);
    var placed := WithSlot(g, j, slot, Some(Newborn(parent.kind, g.cells[j].position)));
    WithSlot(placed, i, slot, Some(AfterSpawnParent(parent)))
  }

  /** The placement half of `spawn` on values: the new grid, the generator and whether a child was placed. */
  function Spawned(s: Rng, g: Grid, i: nat, slot: Slot): (r: (Grid, Rng, bool))
    requires ValidGrid(g) && i < |g.cells|
    requires SlotOf(g.cells[i], slot).Some? && HasReproductionEnergy(SlotOf(g.cells[i], slot).value)
    ensures r.0.width == g.width && r.0.height == g.height && |r.0.cells| == |g.cells|
    ensures !r.2 ==> r.0 == g && r.1 == s
  {
    var (q, s') := SpawnTarget(s, g, i, slot);
    if q.None? then (g, s, false)
    else
      CellAtIndex(g, q.value);
      (PlaceNewborn(g, i, Index(g.width, q.value), slot), s', true)
  }

  /** A newborn never lands on its parent: the drawn cell is another cell of the grid. */
  lemma SpawnTargetIsOtherCell(s: Rng, g: Grid, i: nat, slot: Slot)
    requires WellFormed(g) && i < |g.cells| && SpawnTarget(s, g, i, slot).0.Some?
    ensures var q := SpawnTarget(s, g, i, slot).0.value;
      0 <= Index(g.width, q) < |g.cells| && Index(g.width, q) != i &&
      g.cells[Index(g.width, q)].position == q &&
      Occupied(g.cells[Index(g.width, q)], slot) == false
  {
    var q := SpawnTarget(s, g, i, slot).0.value;
    CellAtIndex(g, q);
    DistanceZeroIffEqual(q, g.cells[i].position);
  }

  /** The placement succeeds exactly when some cardinal neighbour has the slot free. */
  lemma SpawnedIffCardinalSpace(s: Rng, g: Grid, i: nat, slot: Slot)
    requires ValidGrid(g) && i < |g.cells|
    requires SlotOf(g.cells[i], slot).Some? && HasReproductionEnergy(SlotOf(g.cells[i], slot).value)
    ensures Spawned(s, g, i, slot).2 <==>
      exists q :: q in Neighborhood(g.cells[i].position, g.width, g.height, 1).value && CellAt(g, q).Some? &&
        MatchesFilter(CellAt(g, q).value, SpawnFilter(slot))
  {
    CandidatesNonEmpty(g, Neighborhood(g.cells[i].position, g.width, g.height, 1).value, SpawnFilter(slot));
  }

  /** A spawn keeps the world invariant. */
  lemma SpawnedKeepsValid(s: Rng, g: Grid, i: nat, slot: Slot)
    requires ValidGrid(g) && i < |g.cells|
    requires SlotOf(g.cells[i], slot).Some? && HasReproductionEnergy(SlotOf(g.cells[i], slot).value)
    ensures ValidGrid(Spawned(s, g, i, slot).0)
  {
    var q := SpawnTarget(s, g, i, slot).0;
    if q.Some? {
      SpawnTargetIsOtherCell(s, g, i, slot);
      var j := Index(g.width, q.value);
      var parent := SlotOf(g.cells[i], slot).value;
      assert ValidCell(g.cells[i]);
      var placed := WithSlot(g, j, slot, Some(Newborn(parent.kind, g.cells[j].position)));
      WithSlotKeepsValid(g, j, slot, Some(Newborn(parent.kind, g.cells[j].position)));
      WithSlotKeepsValid(placed, i, slot, Some(AfterSpawnParent(parent)));
    }
  }

  /**
   * A successful spawn adds exactly one organism to the parent's slot kind and
   * none to the other; the child sits in a cardinal neighbour that was free,
   * with its species' default energy; the parent stays, having paid; every
   * other cell is unchanged.
   */
  lemma SpawnedEffect(s: Rng, g: Grid, i: nat, slot: Slot, other: Slot)
    requires ValidGrid(g) && i < |g.cells| && other != slot
    requires SlotOf(g.cells[i], slot).Some? && HasReproductionEnergy(SlotOf(g.cells[i], slot).value)
    requires Spawned(s, g, i, slot).2
    ensures var r := Spawned(s, g, i, slot).0;
      var parent := SlotOf(g.cells[i], slot).value;
      Count(r.cells, slot) == Count(g.cells, slot) + 1 &&
      Count(r.cells, other) == Count(g.cells, other) &&
      SlotOf(r.cells[i], slot) == Some(AfterSpawnParent(parent)) &&
      exists j :: 0 <= j < |g.cells| && j != i &&
        Distance(g.cells[j].position, g.cells[i].position) == 1 &&
        SlotOf(g.cells[j], slot).None? &&
        SlotOf(r.cells[j], slot) == Some(Newborn(parent.kind, g.cells[j].position)) &&
        forall k :: 0 <= k < |g.cells| && k != i && k != j ==> r.cells[k] == g.cells[k]
  {
    SpawnTargetIsOtherCell(s, g, i, slot);
    var q := SpawnTarget(s, g, i, slot).0.value;
    var j := Index(g.width, q);
    var parent := SlotOf(g.cells[i], slot).value;
    assert ValidCell(g.cells[i]);
    var child := Some(Newborn(parent.kind, g.cells[j].position));
    var placed := WithSlot(g, j, slot, child);
    var r := WithSlot(placed, i, slot, Some(AfterSpawnParent(parent)));
    assert r == Spawned(s, g, i, slot).0;
    WithSlotCount(g, j, slot, child, slot);
    WithSlotCount(g, j, slot, child, other);
    WithSlotCount(placed, i, slot, Some(AfterSpawnParent(parent)), slot);
    WithSlotCount(placed, i, slot, Some(AfterSpawnParent(parent)), other);
    assert Distance(g.cells[j].position, g.cells[i].position) == 1;
  }

  /**
   * The placement half of `spawn` on the objects: the parent sits in slot
   * `slot` of cell `k`; the child is made by `reproduce`, told its position
   * and put into the drawn cell, then the parent pays.
   */
  method PlaceChild(parent: Organism, world: World, random: RandomGenerator, ghost k: nat) returns (spawned: bool)
    requires world.Valid() && k < |world.grid| && world.SlotObject(k, SlotFor(parent.kind)) == parent
    requires HasReproductionEnergy(parent.State())
    modifies world.Repr(), random
    ensures world.Valid()
    ensures (world.State(), random.rng, spawned) == Spawned(old(random.rng), old(world.State()), k, SlotFor(parent.kind))
    ensures forall o :: o in world.Repr() ==> o in old(world.Repr()) || fresh(o)
  {
    var q := DrawTarget(parent, world, random, k);
    spawned := PlaceDrawn(parent, world, q, k, old(random.rng), random);
  }

  /** The rest of the placement once `q` is drawn: nothing when there is no target, otherwise `PutChild`. */
  method PlaceDrawn(parent: Organism, world: World, q: Option<Position>, ghost k: nat, ghost s0: Rng, ghost random: RandomGenerator)
    returns (spawned: bool)
    requires world.Valid() && k < |world.grid| && world.SlotObject(k, SlotFor(parent.kind)) == parent
    requires HasReproductionEnergy(parent.State())
    requires (q, random.rng) == SpawnTarget(s0, world.State(), k, SlotFor(parent.kind))
    modifies world.Repr()
    ensures world.Valid()
    ensures (world.State(), random.rng, spawned) == Spawned(s0, old(world.State()), k, SlotFor(parent.kind))
    ensures forall o :: o in world.Repr() ==> o in old(world.Repr()) || fresh(o)
  {
    ghost var g := world.State();
    if q.None? {
      return false;
    }
    SpawnTargetIsOtherCell(s0, g, k, SlotFor(parent.kind));
    var child := PutChild(parent, world, q.value, k);
    spawned := true;
  }

  /** The draw of `spawn`: a random neighbour at distance 1 whose slot is free. */
  method DrawTarget(parent: Organism, world: World, random: RandomGenerator, ghost k: nat) returns (q: Option<Position>)
    requires world.Valid() && k < |world.grid| && world.SlotObject(k, SlotFor(parent.kind)) == parent
    modifies random
    ensures (q, random.rng) == SpawnTarget(old(random.rng), world.State(), k, SlotFor(parent.kind))
  {
    world.CellFacts(k);
    q := random.RandomNeighborMatching(parent.position.value, world, SpawnFilter(SlotFor(parent.kind)));
  }

  /** After a successful draw: `reproduce`, the child placed in the drawn cell's slot with its position set, then the parent pays. */
  method PutChild(parent: Organism, world: World, q: Position, ghost k: nat) returns (child: Organism)
    requires world.Valid() && k < |world.grid| && world.SlotObject(k, SlotFor(parent.kind)) == parent
    requires HasReproductionEnergy(parent.State())
    requires 0 <= Index(world.width, q) < |world.grid| && Index(world.width, q) != k
    requires world.grid[Index(world.width, q)].position == q
    modifies world.Repr()
    ensures world.Valid()
    ensures world.State() == PlaceNewborn(old(world.State()), k, Index(world.width, q), SlotFor(parent.kind))
    ensures fresh(child) && world.Repr() <= old(world.Repr()) + {child}
  {
    ghost var g := world.State();
    world.CellFacts(k);
    var j := Index(world.width, q);
    child := parent.Reproduce();
    assert world.State() == g;
    ghost var r0 := world.Repr();
    world.PlaceOccupant(j, SlotFor(parent.kind), child);
    ghost var r1 := world.Repr();
    assert r1 <= r0 + {child};
    assert world.SlotObject(k, SlotFor(parent.kind)) == parent;
    PayForChild(parent, world, k);
    assert world.Repr() == r1;
  }

  /** The parent's share of `spawn`: a plant is reset to 1, an animal subtracts half its energy. */
  method PayForChild(parent: Organism, world: World, ghost k: nat)
    requires world.Valid() && k < |world.grid| && world.SlotObject(k, SlotFor(parent.kind)) == parent
    requires ValidEnergy(parent.State()) && HasReproductionEnergy(parent.State())
    modifies parent
    ensures world.Valid()
    ensures world.State() == WithSlot(old(world.State()), k, SlotFor(parent.kind), Some(AfterSpawnParent(old(parent.State()))))
    ensures world.Repr() == old(world.Repr())
  {
    ghost var s0 := world.State();
    ghost var slot := SlotFor(parent.kind);
    world.CellFacts(k);
    world.OnlyHere(k, parent);
    if parent.kind == Plant {
      parent.SetEnergy(1);
    } else {
      parent.SubEnergy(parent.energy / 2);
    }
    ghost var paid := Some(AfterSpawnParent(old(parent.State())));
    assert forall j :: 0 <= j < |world.grid| && j != k ==> world.State().cells[j] == s0.cells[j];
    assert world.State().cells[k] == WithSlot(s0, k, slot, paid).cells[k];
    WithSlotKeepsValid(s0, k, slot, paid);
  }
}
