/**
 * The world as a value: a `width` x `height` rectangle of cell states stored
 * row-major (row `y` starts at `y * width`), bounds, neighbour offsets, the grid invariant
 * and the two transfers between cells.
 */
module Grids {
  import opened Wrappers
  import opened Positions
  import opened Organisms
  import opened Cells

  /** `isValidPosition` / the bounds test of `addValidPosition` and `getNeighbors`. */
  predicate InBounds(width: int, height: int, x: int, y: int)
  {
    0 <= x < width && 0 <= y < height
  }

  /**
   * The number of cells in the first `rows` rows of a grid `width` wide, one
   * row at a time; `RowStartIsProduct` shows it is `rows * width`.
   */
  function RowStart(rows: nat, width: nat): nat
  {
    if rows == 0 then 0 else RowStart(rows - 1, width) + width
  }

  lemma {:induction false} RowStartIsProduct(rows: nat, width: nat)
    ensures RowStart(rows, width) == rows * width
  {
    if rows > 0 {
      RowStartIsProduct(rows - 1, width);
      assert rows * width == (rows - 1) * width + width;
    }
  }

  /** Row-major index of a position: row `y`, column `x`. */
  function Index(width: nat, p: Position): int
  {
    RowStart(p.y, width) + p.x
  }

  lemma {:induction false} RowStartMonotone(a: nat, b: nat, width: nat)
    requires a <= b
    ensures RowStart(a, width) <= RowStart(b, width)
    decreases b
  {
    if a < b {
      RowStartMonotone(a, b - 1, width);
    }
  }

  lemma IndexBounds(width: nat, height: nat, p: Position)
    requires InBounds(width, height, p.x, p.y)
    ensures 0 <= Index(width, p) < RowStart(height, width)
  {
    RowStartMonotone(p.y + 1, height, width);
  }

  /** Two positions of the same row width share an index only when they are equal. */
  lemma IndexInjective(width: nat, p: Position, q: Position)
    requires p.x < width && q.x < width
    requires Index(width, p) == Index(width, q)
    ensures p == q
  {
    if p.y < q.y {
      RowStartMonotone(p.y + 1, q.y, width);
    } else if q.y < p.y {
      RowStartMonotone(q.y + 1, p.y, width);
    }
  }

  /** An offset `(dx, dy)` from a centre. */
  type Delta = (int, int)

  /** The position at offset `d` from `c`, as a one-element list, or nothing when it leaves the grid. */
  function ShiftOne(width: Coord, height: Coord, c: Position, d: Delta): (r: seq<Position>)
    ensures |r| <= 1
    ensures r != [] <==> InBounds(width, height, c.x + d.0, c.y + d.1)
    ensures r != [] ==> r[0].x == c.x + d.0 && r[0].y == c.y + d.1
  {
    if InBounds(width, height, c.x + d.0, c.y + d.1) then [Position(c.x + d.0, c.y + d.1)] else []
  }

  /** The in-bounds positions at the offsets `ds` from `c`, in the order of `ds`. */
  function Shifted(width: Coord, height: Coord, c: Position, ds: seq<Delta>): (r: seq<Position>)
    ensures |r| <= |ds|
    decreases |ds|
  {
    if ds == [] then [] else ShiftOne(width, height, c, ds[0]) + Shifted(width, height, c, ds[1..])
  }

  lemma {:induction false} ShiftedAppend(width: Coord, height: Coord, c: Position, a: seq<Delta>, b: seq<Delta>)
    ensures Shifted(width, height, c, a + b) == Shifted(width, height, c, a) + Shifted(width, height, c, b)
    decreases |a|
  {
    if a == [] {
      assert a + b == b;
    } else {
      assert (a + b)[0] == a[0] && (a + b)[1..] == a[1..] + b;
      ShiftedAppend(width, height, c, a[1..], b);
    }
  }

  lemma ShiftedStep(width: Coord, height: Coord, c: Position, ds: seq<Delta>, k: nat, kept: seq<Position>)
    requires k < |ds|
    ensures kept + Shifted(width, height, c, ds[k..]) ==
      (kept + ShiftOne(width, height, c, ds[k])) + Shifted(width, height, c, ds[k + 1..])
  {
    assert ds[k..][0] == ds[k] && ds[k..][1..] == ds[k + 1..];
  }

  /** A position is listed exactly when it is inside the grid and its offset from the centre is one of `ds`. */
  lemma {:induction false} ShiftedMembership(width: Coord, height: Coord, c: Position, ds: seq<Delta>, q: Position)
    ensures q in Shifted(width, height, c, ds) <==> InBounds(width, height, q.x, q.y) && (q.x - c.x, q.y - c.y) in ds
    decreases |ds|
  {
    if ds != [] {
      ShiftedMembership(width, height, c, ds[1..], q);
      assert ds == [ds[0]] + ds[1..];
    }
  }

  /** `getNeighbors` offsets with diagonals, in source order. */
  const Deltas8: seq<Delta> := [(-1, -1), (-1, 0), (-1, 1), (0, -1), (0, 1), (1, -1), (1, 0), (1, 1)]
  /** `getNeighbors` offsets without diagonals, in source order. */
  const Deltas4: seq<Delta> := [(-1, 0), (1, 0), (0, -1), (0, 1)]

  /** The positions `getNeighbors` returns the cells of. */
  function NeighborPositions(width: Coord, height: Coord, p: Position, includeDiagonals: bool): seq<Position>
  {
    Shifted(width, height, p, if includeDiagonals then Deltas8 else Deltas4)
  }

  /**
   * The neighbours of `p` are the in-bounds positions other than `p` at Chebyshev
   * distance 1; without diagonals, only those sharing a row or a column with `p`.
   */
  lemma NeighborPositionsMembership(width: Coord, height: Coord, p: Position, includeDiagonals: bool, q: Position)
    ensures q in NeighborPositions(width, height, p, includeDiagonals) <==>
      InBounds(width, height, q.x, q.y) && q != p && Abs(q.x - p.x) <= 1 && Abs(q.y - p.y) <= 1 &&
      (includeDiagonals || q.x == p.x || q.y == p.y)
  {
    var d := (q.x - p.x, q.y - p.y);
    if includeDiagonals {
      ShiftedMembership(width, height, p, Deltas8, q);
      Deltas8Membership(d);
    } else {
      ShiftedMembership(width, height, p, Deltas4, q);
      Deltas4Membership(d);
    }
  }

  /** The eight offsets are the non-zero ones with both coordinates in -1..1. */
  lemma Deltas8Membership(d: Delta)
    ensures d in Deltas8 <==> -1 <= d.0 <= 1 && -1 <= d.1 <= 1 && d != (0, 0)
  {
  }

  /** The four offsets are the non-zero ones in -1..1 that keep a row or a column. */
  lemma Deltas4Membership(d: Delta)
    ensures d in Deltas4 <==> -1 <= d.0 <= 1 && -1 <= d.1 <= 1 && d != (0, 0) && (d.0 == 0 || d.1 == 0)
  {
  }

  /** The whole world as a value: its dimensions and its cells, row-major. */
  datatype Grid = Grid(width: Coord, height: Coord, cells: seq<CellState>)

  /** One cell per position, each at the index of its own position. */
  predicate WellFormed(g: Grid)
  {
    |g.cells| == RowStart(g.height, g.width) &&
    forall i :: 0 <= i < |g.cells| ==>
      InBounds(g.width, g.height, g.cells[i].position.x, g.cells[i].position.y) &&
      Index(g.width, g.cells[i].position) == i
  }

  /** An occupant knows it is in this cell, sits in the slot of its kind and keeps its energy invariant. */
  predicate ValidOccupant(o: OrganismState, at: Position, plantSlot: bool)
  {
    (if plantSlot then o.kind == Plant else IsAnimal(o.kind)) && o.position == Some(at) && ValidEnergy(o)
  }

  predicate ValidCell(c: CellState)
  {
    (c.animal.Some? ==> ValidOccupant(c.animal.value, c.position, false)) &&
    (c.plant.Some? ==> ValidOccupant(c.plant.value, c.position, true))
  }

  /** The world invariant: well formed, and every occupant valid in its cell. */
  predicate ValidGrid(g: Grid)
  {
    WellFormed(g) && forall i :: 0 <= i < |g.cells| ==> ValidCell(g.cells[i])
  }

  /** In a well-formed grid the cell stored for an in-bounds position is the one at that position. */
  lemma CellAtIndex(g: Grid, p: Position)
    requires WellFormed(g) && InBounds(g.width, g.height, p.x, p.y)
    ensures 0 <= Index(g.width, p) < |g.cells|
    ensures g.cells[Index(g.width, p)].position == p
  {
    IndexBounds(g.width, g.height, p);
    IndexInjective(g.width, g.cells[Index(g.width, p)].position, p);
  }

  /** `getCell` on the value: the cell at `p`, nothing when `p` is outside the world. */
  function CellAt(g: Grid, p: Position): (r: Option<CellState>)
    requires WellFormed(g)
    ensures r.Some? <==> InBounds(g.width, g.height, p.x, p.y)
    ensures r.Some? ==> r.value.position == p && r.value in g.cells
  {
    if InBounds(g.width, g.height, p.x, p.y) then
      CellAtIndex(g, p);
      Some(g.cells[Index(g.width, p)])
    else None
  }

  /** No occupant anywhere: what a freshly built world holds. */
  predicate IsEmptyGrid(g: Grid)
  {
    forall i :: 0 <= i < |g.cells| ==> g.cells[i].IsCompletelyEmpty()
  }

  /** `transferAnimal` on the value: the animal of cell `i` moves to cell `j` only if `j` has no animal. */
  function MoveAnimal(g: Grid, i: nat, j: nat): (r: Grid)
    requires i < |g.cells| && j < |g.cells|
    ensures r.width == g.width && r.height == g.height && |r.cells| == |g.cells|
  {
    var from := g.cells[i];
    var to := g.cells[j];
    if from.animal.Some? && to.animal.None? then
      var a := from.animal.value.(position := Some(to.position));
      g.(cells := g.cells[i := from.(animal := None)][j := to.(animal := Some(a))])
    else g
  }

  /** `transferPlant` on the value, the same rule on the plant slot. */
  function MovePlant(g: Grid, i: nat, j: nat): (r: Grid)
    requires i < |g.cells| && j < |g.cells|
    ensures r.width == g.width && r.height == g.height && |r.cells| == |g.cells|
  {
    var from := g.cells[i];
    var to := g.cells[j];
    if from.plant.Some? && to.plant.None? then
      var p := from.plant.value.(position := Some(to.position));
      g.(cells := g.cells[i := from.(plant := None)][j := to.(plant := Some(p))])
    else g
  }

  datatype Slot = AnimalSlot | PlantSlot

  predicate Occupied(c: CellState, slot: Slot)
  {
    if slot == AnimalSlot then c.animal.Some? else c.plant.Some?
  }

  /** The occupant of one slot of a cell. */
  function SlotOf(c: CellState, slot: Slot): Option<OrganismState>
  {
    if slot == AnimalSlot then c.animal else c.plant
  }

  /** The grid with one slot of cell `i` set to `o`; every other slot and cell as before. */
  function WithSlot(g: Grid, i: nat, slot: Slot, o: Option<OrganismState>): (r: Grid)
    requires i < |g.cells|
    ensures r.width == g.width && r.height == g.height && |r.cells| == |g.cells|
    ensures r.cells[i].position == g.cells[i].position && SlotOf(r.cells[i], slot) == o
    ensures slot == AnimalSlot ==> r.cells[i].plant == g.cells[i].plant
    ensures slot == PlantSlot ==> r.cells[i].animal == g.cells[i].animal
    ensures forall k :: 0 <= k < |g.cells| && k != i ==> r.cells[k] == g.cells[k]
  {
    var c := g.cells[i];
    g.(cells := g.cells[i := if slot == AnimalSlot then c.(animal := o) else c.(plant := o)])
  }

  /** Filling or emptying a slot keeps the invariant as long as a new occupant belongs there. */
  lemma WithSlotKeepsValid(g: Grid, i: nat, slot: Slot, o: Option<OrganismState>)
    requires ValidGrid(g) && i < |g.cells|
    requires o.Some? ==> ValidOccupant(o.value, g.cells[i].position, slot == PlantSlot)
    ensures ValidGrid(WithSlot(g, i, slot, o))
  {
    var r := WithSlot(g, i, slot, o);
    assert ValidCell(g.cells[i]);
    assert ValidCell(r.cells[i]);
  }

  /** How many cells have the given slot occupied. */
  function Count(cells: seq<CellState>, slot: Slot): (n: nat)
    ensures n <= |cells|
    decreases |cells|
  {
    if cells == [] then 0 else (if Occupied(cells[0], slot) then 1 else 0) + Count(cells[1..], slot)
  }

  lemma {:induction false} CountUpdate(cells: seq<CellState>, i: nat, c: CellState, slot: Slot)
    requires i < |cells|
    ensures Count(cells[i := c], slot) + (if Occupied(cells[i], slot) then 1 else 0) ==
            Count(cells, slot) + (if Occupied(c, slot) then 1 else 0)
    decreases |cells|
  {
    if i > 0 {
      assert cells[i := c][1..] == cells[1..][i - 1 := c];
      CountUpdate(cells[1..], i - 1, c, slot);
    }
  }

  /** Setting a slot changes the count of that slot kind by the difference of occupancy, and no other count. */
  lemma WithSlotCount(g: Grid, i: nat, slot: Slot, o: Option<OrganismState>, counted: Slot)
    requires i < |g.cells|
    ensures Count(WithSlot(g, i, slot, o).cells, counted) + (if Occupied(g.cells[i], counted) then 1 else 0) ==
            Count(g.cells, counted) + (if Occupied(WithSlot(g, i, slot, o).cells[i], counted) then 1 else 0)
  {
    var c := g.cells[i];
    CountUpdate(g.cells, i, if slot == AnimalSlot then c.(animal := o) else c.(plant := o), counted);
  }

  /** A successful `transferAnimal` on values is emptying the source slot, then filling the destination's. */
  lemma MoveAnimalBySlots(g: Grid, i: nat, j: nat)
    requires i < |g.cells| && j < |g.cells| && g.cells[i].animal.Some? && g.cells[j].animal.None?
    ensures MoveAnimal(g, i, j) ==
      WithSlot(WithSlot(g, i, AnimalSlot, None), j, AnimalSlot, Some(g.cells[i].animal.value.(position := Some(g.cells[j].position))))
  {
  }

  /** The same for `transferPlant`. */
  lemma MovePlantBySlots(g: Grid, i: nat, j: nat)
    requires i < |g.cells| && j < |g.cells| && g.cells[i].plant.Some? && g.cells[j].plant.None?
    ensures MovePlant(g, i, j) ==
      WithSlot(WithSlot(g, i, PlantSlot, None), j, PlantSlot, Some(g.cells[i].plant.value.(position := Some(g.cells[j].position))))
  {
  }

  /** A transfer keeps the number of animals and of plants: nothing is created or lost. */
  lemma MoveAnimalKeepsPopulation(g: Grid, i: nat, j: nat, slot: Slot)
    requires i < |g.cells| && j < |g.cells|
    ensures Count(MoveAnimal(g, i, j).cells, slot) == Count(g.cells, slot)
  {
    var from := g.cells[i];
    var to := g.cells[j];
    if from.animal.Some? && to.animal.None? {
      var a := from.animal.value.(position := Some(to.position));
      var s1 := g.cells[i := from.(animal := None)];
      CountUpdate(g.cells, i, from.(animal := None), slot);
      CountUpdate(s1, j, to.(animal := Some(a)), slot);
    }
  }

  lemma MovePlantKeepsPopulation(g: Grid, i: nat, j: nat, slot: Slot)
    requires i < |g.cells| && j < |g.cells|
    ensures Count(MovePlant(g, i, j).cells, slot) == Count(g.cells, slot)
  {
    var from := g.cells[i];
    var to := g.cells[j];
    if from.plant.Some? && to.plant.None? {
      var p := from.plant.value.(position := Some(to.position));
      var s1 := g.cells[i := from.(plant := None)];
      CountUpdate(g.cells, i, from.(plant := None), slot);
      CountUpdate(s1, j, to.(plant := Some(p)), slot);
    }
  }

  /** A transfer keeps the world invariant: the moved occupant learns its new position. */
  lemma MoveAnimalKeepsValid(g: Grid, i: nat, j: nat)
    requires ValidGrid(g) && i < |g.cells| && j < |g.cells|
    ensures ValidGrid(MoveAnimal(g, i, j))
  {
  }

  lemma MovePlantKeepsValid(g: Grid, i: nat, j: nat)
    requires ValidGrid(g) && i < |g.cells| && j < |g.cells|
    ensures ValidGrid(MovePlant(g, i, j))
  {
  }
}
