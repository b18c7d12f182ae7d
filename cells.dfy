/**
 * Cells: one grid square with a fixed position, an animal slot and a plant slot.
 * A cell holds at most one animal and at most one plant at the same time.
 */
module Cells {
  import opened Wrappers
  import opened Positions
  import opened Organisms

  /** A cell as a value: its position and the states of its two occupants. */
  datatype CellState = CellState(position: Position, animal: Option<OrganismState>, plant: Option<OrganismState>)
  {
    predicate HasAnimal() { animal.Some? }
    predicate IsEmptyAnimal() { animal.None? }
    predicate HasPlant() { plant.Some? }
    predicate IsEmptyPlant() { plant.None? }
    predicate IsCompletelyEmpty() { animal.None? && plant.None? }
    /** The legacy alias of `IsCompletelyEmpty`. */
    predicate IsEmpty() { IsCompletelyEmpty() }

    /** `getOrganism`: the animal if there is one, otherwise the plant. */
    function Occupant(): (r: Option<OrganismState>)
      ensures r.None? <==> IsCompletelyEmpty()
      ensures HasAnimal() ==> r == animal
      ensures !HasAnimal() ==> r == plant
    {
      if animal.Some? then animal else plant
    }
  }

  function StateOf(o: Organism?): (r: Option<OrganismState>)
    reads o
    ensures r.Some? <==> o != null
    ensures o != null ==> r.value == o.State()
  {
    if o == null then None else Some(o.State())
  }

  class Cell {
    const position: Position
    var animal: Organism?
    var plant: Organism?

    constructor (position: Position)
      ensures this.position == position && animal == null && plant == null
      ensures State() == CellState(position, None, None)
    {
      this.position := position;
      animal := null;
      plant := null;
    }

    function State(): CellState
      reads this, animal, plant
    {
      CellState(position, StateOf(animal), StateOf(plant))
    }

    /** `getOrganism` on the object: the one reference it hands out. */
    function GetOrganism(): (r: Organism?)
      reads this
      ensures r == null <==> animal == null && plant == null
      ensures animal != null ==> r == animal
      ensures animal == null ==> r == plant
    {
      if animal != null then animal else plant
    }

    /** `setAnimal` overwrites the slot; the Java field type admits only animals. */
    method SetAnimal(a: Organism?)
      requires a == null || IsAnimal(a.kind)
      modifies this
      ensures animal == a && plant == old(plant)
    {
      animal := a;
    }

    method RemoveAnimal()
      modifies this
      ensures animal == null && plant == old(plant)
    {
      animal := null;
    }

    /** `setPlant` overwrites the slot; the Java field type admits only plants. */
    method SetPlant(p: Organism?)
      requires p == null || p.kind == Plant
      modifies this
      ensures plant == p && animal == old(animal)
    {
      plant := p;
    }

    method RemovePlant()
      modifies this
      ensures plant == null && animal == old(animal)
    {
      plant := null;
    }
  }
}
