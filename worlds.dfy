/**
 * The `World` object: a fixed rectangle of `Cell` objects built once, row-major,
 * with bounds checks, cell lookup, neighbour lists and the animal and plant
 * transfers between cells.
 */
module Worlds {
  import opened Wrappers
  import opened Positions
  import opened Organisms
  import opened Cells
  import opened Grids

  class World {
    const width: Coord
    const height: Coord
    /** The cells, row-major: the cell of `(x, y)` is `grid[Index(width, Position(x, y))]`. */
    const grid: seq<Cell>

    ghost function Cells(): set<Cell>
    {
      set c | c in grid
    }

    /** The organisms the cells hold (with `null` for the empty slots). */
    ghost function Occupants(): set<Organism?>
      reads Cells()
    {
      (set c | c in grid :: c.animal) + (set c | c in grid :: c.plant)
    }

    /** Everything a phase may change: the cells and their occupants. */
    ghost function Repr(): set<object?>
      reads Cells()
    {
      Cells() + Occupants()
    }

    /** The world as a value. */
    function State(): (g: Grid)
      reads Cells(), Occupants()
      ensures g.width == width && g.height == height && |g.cells| == |grid|
    {
      Grid(width, height, seq(|grid|, (i: int) requires 0 <= i < |grid| reads Cells(), Occupants() => grid[i].State()))
    }

    /** One cell per position of the rectangle, each at the index of its position; cells never move. */
    ghost predicate Positioned()
    {
      |grid| == RowStart(height, width) &&
      forall k :: 0 <= k < |grid| ==> InBounds(width, height, grid[k].position.x, grid[k].position.y) && Index(width, grid[k].position) == k
    }

    ghost predicate Valid()
      reads Cells(), Occupants()
    {
      Positioned() && ValidGrid(State())
    }

    /** The index of a cell of this world is the row-major index of its position. */
    ghost function IndexOf(c: Cell): (k: nat)
      requires Positioned() && c in Cells()
      ensures k < |grid| && grid[k] == c && k == Index(width, c.position)
    {
      var k :| 0 <= k < |grid| && grid[k] == c;
      k
    }

    /** What the invariant says of the cell at index `k` and of its occupants, on the objects themselves. */
    lemma CellFacts(k: nat)
      requires Valid() && k < |grid|
      ensures State().cells[k] == grid[k].State()
      ensures InBounds(width, height, grid[k].position.x, grid[k].position.y) && Index(width, grid[k].position) == k
      ensures grid[k].animal != null ==> ValidOccupant(grid[k].animal.State(), grid[k].position, false)
      ensures grid[k].plant != null ==> ValidOccupant(grid[k].plant.State(), grid[k].position, true)
    {
      assert ValidCell(State().cells[k]);
    }

    /** An organism of this world sits in exactly one slot: no other slot refers to it. */
    lemma OnlyHere(i: nat, o: Organism)
      requires Valid() && i < |grid| && (grid[i].animal == o || grid[i].plant == o)
      ensures forall k :: 0 <= k < |grid| && k != i ==> grid[k].animal != o && grid[k].plant != o
      ensures grid[i].animal == o ==> grid[i].plant != o
      ensures grid[i].plant == o ==> grid[i].animal != o
    {
      CellFacts(i);
      forall k | 0 <= k < |grid| && k != i
        ensures grid[k].animal != o && grid[k].plant != o
      {
        CellFacts(k);
      }
    }

    /** The world's value is the grid `g` when every cell's value is the matching cell of `g`. */
    lemma StateIs(g: Grid)
      requires g.width == width && g.height == height && |g.cells| == |grid|
      requires forall k :: 0 <= k < |grid| ==> grid[k].State() == g.cells[k]
      ensures State() == g
    {
    }

    /** The footprint holds cells and organisms only, so no other object (a generator, say) is ever in it. */
    lemma ReprHoldsCellsAndOrganisms()
      ensures forall o: object :: o in Repr() ==> o is Cell || o is Organism
    {
    }

    /** Every slot of the world holds an object of its footprint, or `null`. */
    lemma SlotsInRepr()
      ensures forall k :: 0 <= k < |grid| ==> grid[k].animal in Repr() && grid[k].plant in Repr()
    {
      forall k | 0 <= k < |grid|
        ensures grid[k].animal in Repr() && grid[k].plant in Repr()
      {
        assert grid[k] in grid;
      }
    }

    /** When every slot holds an object of `s`, the footprint is the cells and objects of `s`. */
    lemma ReprWithin(s: set<object?>)
      requires forall k :: 0 <= k < |grid| ==> grid[k].animal in s && grid[k].plant in s
      ensures Repr() <= Cells() + s
    {
      forall o | o in Occupants()
        ensures o in s
      {
        var c :| c in grid && (o == c.animal || o == c.plant);
        var k :| 0 <= k < |grid| && grid[k] == c;
      }
    }

    /** `isValidPosition`. */
    predicate IsValidPosition(p: Position)
    {
      InBounds(width, height, p.x, p.y)
    }

    /** `getCell`: the cell at `p`, or `null` outside the world. */
    function GetCell(p: Position): (c: Cell?)
      requires Positioned()
      ensures c == null <==> !IsValidPosition(p)
      ensures c != null ==> c in Cells() && c.position == p && 0 <= Index(width, p) < |grid| && c == grid[Index(width, p)]
    {
      if IsValidPosition(p) then
        var k := Index(width, p);
        IndexBounds(width, height, p);
        IndexInjective(width, grid[k].position, p);
        grid[k]
      else null
    }

    /** The constructor: every position of the rectangle gets a fresh, empty cell, row by row. */
    constructor (width: Coord, height: Coord)
      ensures this.width == width && this.height == height
      ensures Valid() && IsEmptyGrid(State())
      ensures forall c :: c in Cells() ==> fresh(c)
    {
      var cells: seq<Cell> := [];
      var y := 0;
      while y < height
        invariant 0 <= y <= height
        invariant |cells| == RowStart(y, width)
        invariant forall i :: 0 <= i < |cells| ==>
          InBounds(width, height, cells[i].position.x, cells[i].position.y) && Index(width, cells[i].position) == i &&
          cells[i].animal == null && cells[i].plant == null && fresh(cells[i])
      {
        var x := 0;
        while x < width
          invariant 0 <= x <= width
          invariant |cells| == RowStart(y, width) + x
          invariant forall i :: 0 <= i < |cells| ==>
            InBounds(width, height, cells[i].position.x, cells[i].position.y) && Index(width, cells[i].position) == i &&
            cells[i].animal == null && cells[i].plant == null && fresh(cells[i])
        {
          var cell := new Cell(Position(x, y));
          cells := cells + [cell];
          x := x + 1;
        }
        y := y + 1;
      }
      this.width := width;
      this.height := height;
      grid := cells;
      new;
      assert forall i :: 0 <= i < |grid| ==> State().cells[i] == grid[i].State();
    }

    /** `transferAnimal`: the animal moves only if the destination's animal slot is free, and learns its new position. */
    method TransferAnimal(from: Cell, to: Cell)
      requires Valid() && from in Cells() && to in Cells()
      modifies from, to, from.animal
      ensures Valid()
      ensures State() == MoveAnimal(old(State()), IndexOf(from), IndexOf(to))
      ensures Repr() <= old(Repr()) + {null}
    {
      ghost var s0 := State();
      ghost var _ := IndexOf(from) + IndexOf(to);
      var i, j := Index(width, from.position), Index(width, to.position);
      if from.animal != null && to.animal == null {
        CellFacts(i);
        CellFacts(j);
        MoveAnimalBySlots(s0, i, j);
        MoveOccupant(i, j, AnimalSlot);
      }
    }

    /** `transferPlant`: the same rule on the plant slot. */
    method TransferPlant(from: Cell, to: Cell)
      requires Valid() && from in Cells() && to in Cells()
      modifies from, to, from.plant
      ensures Valid()
      ensures State() == MovePlant(old(State()), IndexOf(from), IndexOf(to))
      ensures Repr() <= old(Repr()) + {null}
    {
      ghost var s0 := State();
      ghost var _ := IndexOf(from) + IndexOf(to);
      var i, j := Index(width, from.position), Index(width, to.position);
      if from.plant != null && to.plant == null {
        CellFacts(i);
        CellFacts(j);
        MovePlantBySlots(s0, i, j);
        MoveOccupant(i, j, PlantSlot);
      }
    }

    /** The move both transfers share: empty the slot of cell `i`, tell the organism its new position, fill the slot of cell `j`. */
    method MoveOccupant(i: nat, j: nat, slot: Slot)
      requires Valid() && i < |grid| && j < |grid| && SlotObject(i, slot) != null && SlotObject(j, slot) == null
      modifies grid[i], grid[j], SlotObject(i, slot)
      ensures Valid()
      ensures State() == WithSlot(WithSlot(old(State()), i, slot, None), j, slot,
        Some(old(SlotObject(i, slot).State()).(position := Some(grid[j].position))))
      ensures Repr() <= old(Repr()) + {null}
    {
      var o := if slot == AnimalSlot then grid[i].animal else grid[i].plant;
      CellFacts(i);
      SlotsInRepr();
      ghost var r0, os := Repr(), o.State();
      RemoveOccupant(i, slot);
      ghost var s1, r1 := State(), Repr();
      assert o !in r1 && r1 <= r0 + {null};
      PlaceOccupant(j, slot, o);
      assert State() == WithSlot(s1, j, slot, Some(os.(position := Some(grid[j].position))));
      assert Repr() <= r1 + {o};
    }

    /** `transferOrganism`, the legacy alias: it moves the animal slot only and never a plant. */
    method TransferOrganism(from: Cell, to: Cell)
      requires Valid() && from in Cells() && to in Cells()
      modifies from, to, from.animal
      ensures Valid()
      ensures State() == MoveAnimal(old(State()), IndexOf(from), IndexOf(to))
      ensures Repr() <= old(Repr()) + {null}
    {
      if from.animal != null {
        TransferAnimal(from, to);
      }
    }

    /** The organism object in one slot of cell `k`. */
    function SlotObject(k: nat, slot: Slot): Organism?
      requires k < |grid|
      reads grid[k]
    {
      if slot == AnimalSlot then grid[k].animal else grid[k].plant
    }

    /**
     * `setPosition` then `setAnimal` / `setPlant` on cell `k`, for an organism
     * that is not in the world: a newborn, or one just removed from its old cell.
     */
    method PlaceOccupant(k: nat, slot: Slot, o: Organism)
      requires Valid() && k < |grid| && o !in Occupants()
      requires ValidOccupant(o.State().(position := Some(grid[k].position)), grid[k].position, slot == PlantSlot)
      modifies grid[k], o
      ensures Valid()
      ensures o.State() == old(o.State()).(position := Some(grid[k].position))
      ensures State() == WithSlot(old(State()), k, slot, Some(o.State()))
      ensures Repr() <= old(Repr()) + {o}
    {
      ghost var s0 := State();
      ghost var r0 := Repr();
      CellFacts(k);
      SlotsInRepr();
      assert o !in r0;
      o.SetPosition(Some(grid[k].position));
      ghost var g := WithSlot(s0, k, slot, Some(o.State()));
      if slot == AnimalSlot {
        grid[k].SetAnimal(o);
      } else {
        grid[k].SetPlant(o);
      }
      forall m | 0 <= m < |grid|
        ensures grid[m].State() == g.cells[m]
        ensures grid[m].animal in r0 + {o} && grid[m].plant in r0 + {o}
      {
        if m != k {
          assert grid[m].position != grid[k].position;
          assert grid[m].animal != o && grid[m].plant != o;
          assert grid[m].State() == old(grid[m].State()) == s0.cells[m];
        }
      }
      StateIs(g);
      ReprWithin(r0 + {o});
      WithSlotKeepsValid(s0, k, slot, Some(o.State()));
    }

    /** `removeAnimal` / `removePlant` on a cell of this world; the removed organism leaves the footprint. */
    method RemoveOccupant(k: nat, slot: Slot)
      requires Valid() && k < |grid|
      modifies grid[k]
      ensures Valid()
      ensures State() == WithSlot(old(State()), k, slot, None)
      ensures Repr() <= old(Repr()) - {old(SlotObject(k, slot))} + {null}
    {
      ghost var s0 := State();
      ghost var r0 := Repr();
      ghost var x := SlotObject(k, slot);
      ghost var g := WithSlot(s0, k, slot, None);
      CellFacts(k);
      SlotsInRepr();
      if x != null {
        OnlyHere(k, x);
      }
      if slot == AnimalSlot {
        grid[k].RemoveAnimal();
      } else {
        grid[k].RemovePlant();
      }
      forall m | 0 <= m < |grid|
        ensures grid[m].State() == g.cells[m]
        ensures grid[m].animal in r0 - {x} + {null} && grid[m].plant in r0 - {x} + {null}
      {
        if m != k {
          assert grid[m].position != grid[k].position;
          assert grid[m].State() == old(grid[m].State()) == s0.cells[m];
        }
      }
      StateIs(g);
      ReprWithin(r0 - {x} + {null});
      WithSlotKeepsValid(s0, k, slot, None);
    }

    /** `getNeighbors`: the cells at the neighbour offsets that stay inside the world, in offset order. */
    method GetNeighbors(p: Position, includeDiagonals: bool) returns (ns: seq<Cell>)
      requires Valid()
      ensures |ns| == |NeighborPositions(width, height, p, includeDiagonals)|
      ensures forall k :: 0 <= k < |ns| ==> ns[k] in Cells() && ns[k].position == NeighborPositions(width, height, p, includeDiagonals)[k]
    {
      var deltas := if includeDiagonals then Deltas8 else Deltas4;
      ns := CellsAtOffsets(p, deltas);
    }

    /** One pass of the `getNeighbors` loop: the cell at offset `d`, or nothing when it falls outside the world. */
    method CellAtOffset(p: Position, d: Delta) returns (found: seq<Cell>)
      requires Positioned()
      ensures |found| == |ShiftOne(width, height, p, d)|
      ensures forall m :: 0 <= m < |found| ==> found[m] in Cells() && found[m].position == ShiftOne(width, height, p, d)[m]
    {
      var nx := p.x + d.0;
      var ny := p.y + d.1;
      if InBounds(width, height, nx, ny) {
        var c := GetCell(Position(nx, ny));
        found := [c];
      } else {
        found := [];
      }
    }

    /** Cells standing at listed positions, joined, stand at the joined positions. */
    lemma CellsAtAppend(ns: seq<Cell>, found: seq<Cell>, done: seq<Position>, one: seq<Position>)
      requires |ns| == |done| && |found| == |one|
      requires forall m :: 0 <= m < |ns| ==> ns[m] in Cells() && ns[m].position == done[m]
      requires forall m :: 0 <= m < |found| ==> found[m] in Cells() && found[m].position == one[m]
      ensures |ns + found| == |done + one|
      ensures forall m :: 0 <= m < |ns + found| ==> (ns + found)[m] in Cells() && (ns + found)[m].position == (done + one)[m]
    {
      forall m | 0 <= m < |ns + found|
        ensures (ns + found)[m] in Cells() && (ns + found)[m].position == (done + one)[m]
      {
        if m >= |ns| {
          assert (ns + found)[m] == found[m - |ns|] && (done + one)[m] == one[m - |ns|];
        }
      }
    }

    /** The loop of `getNeighbors`: one bounds test per offset, in order. */
    method CellsAtOffsets(p: Position, deltas: seq<Delta>) returns (ns: seq<Cell>)
      requires Positioned()
      ensures |ns| == |Shifted(width, height, p, deltas)|
      ensures forall k :: 0 <= k < |ns| ==> ns[k] in Cells() && ns[k].position == Shifted(width, height, p, deltas)[k]
    {
      ghost var done: seq<Position> := [];
      ns := [];
      var k := 0;
      while k < |deltas|
        invariant 0 <= k <= |deltas|
        invariant Shifted(width, height, p, deltas) == done + Shifted(width, height, p, deltas[k..])
        invariant |ns| == |done|
        invariant forall m :: 0 <= m < |ns| ==> ns[m] in Cells() && ns[m].position == done[m]
      {
        ShiftedStep(width, height, p, deltas, k, done);
        var found := CellAtOffset(p, deltas[k]);
        ghost var one := ShiftOne(width, height, p, deltas[k]);
        CellsAtAppend(ns, found, done, one);
        ns := ns + found;
        done := done + one;
        k := k + 1;
      }
      assert deltas[k..] == [];
    }
  }
}
