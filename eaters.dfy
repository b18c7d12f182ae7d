/**
 * The `Eater` helpers: eating the plant or the animal of a cell. The meal's
 * nutrition is read first, added through the eater's own capped `addEnergy`,
 * and then the eaten organism leaves its slot; the other slot is never touched.
 */
module Eaters {
  import opened Wrappers
  import opened Positions
  import opened Organisms
  import opened Cells

  /** `consumePlant` on values: the eater and the cell after eating the cell's plant, if any. */
  function PlantMeal(eater: OrganismState, c: CellState): (r: (OrganismState, CellState))
    ensures r.1.position == c.position && r.1.animal == c.animal
    ensures c.plant.Some? && c.plant.value.kind == Plant ==>
      r.1.plant.None? && r.0 == AfterAddEnergy(eater, Nutrition(c.plant.value))
    ensures c.plant.None? ==> r == (eater, c)
  {
    if c.plant.Some? && IsEdible(c.plant.value.kind) then
      (AfterAddEnergy(eater, Nutrition(c.plant.value)), c.(plant := None))
    else (eater, c)
  }

  /** `consumeAnimal` on values: only an edible animal is eaten; a carnivore stays where it is. */
  function AnimalMeal(eater: OrganismState, c: CellState): (r: (OrganismState, CellState))
    ensures r.1.position == c.position && r.1.plant == c.plant
    ensures c.animal.Some? && IsEdible(c.animal.value.kind) ==>
      r.1.animal.None? && r.0 == AfterAddEnergy(eater, Nutrition(c.animal.value))
    ensures c.animal.None? || !IsEdible(c.animal.value.kind) ==> r == (eater, c)
  {
    if c.animal.Some? && IsEdible(c.animal.value.kind) then
      (AfterAddEnergy(eater, Nutrition(c.animal.value)), c.(animal := None))
    else (eater, c)
  }

  /** A meal never lowers a living eater's energy and never lifts it past its species' maximum. */
  lemma MealBounds(eater: OrganismState, c: CellState)
    requires ValidEnergy(eater)
    requires c.plant.Some? ==> ValidEnergy(c.plant.value)
    requires c.animal.Some? ==> ValidEnergy(c.animal.value)
    ensures eater.energy <= PlantMeal(eater, c).0.energy <= MaxEnergy(eater.kind)
    ensures eater.energy <= AnimalMeal(eater, c).0.energy <= MaxEnergy(eater.kind)
    ensures ValidEnergy(PlantMeal(eater, c).0) && ValidEnergy(AnimalMeal(eater, c).0)
  {
  }

  /** `consumePlant`: every plant is edible, so a present plant is always eaten. */
  method ConsumePlant(eater: Organism, cell: Cell)
    requires IsAnimal(eater.kind)
    requires cell.plant == null || cell.plant.kind == Plant
    modifies eater, cell
    ensures eater.State() == PlantMeal(old(eater.State()), old(cell.State())).0
    ensures cell.animal == old(cell.animal) && cell.plant == null
  {
    if cell.plant != null {
      var plant := cell.plant;
      if IsEdible(plant.kind) {
        eater.AddEnergy(plant.energy);
        cell.RemovePlant();
      }
    }
  }

  /** `consumeAnimal`: the nutrition is read before the eater's energy changes, so the result is the same even if the eater is that animal. */
  method ConsumeAnimal(eater: Organism, cell: Cell)
    requires IsAnimal(eater.kind)
    requires cell.plant == null || cell.plant.kind == Plant
    modifies eater, cell
    ensures eater.State() == AnimalMeal(old(eater.State()), old(cell.State())).0
    ensures cell.plant == old(cell.plant)
    ensures old(cell.animal) != null && IsEdible(old(cell.animal.kind)) ==> cell.animal == null
    ensures old(cell.animal) == null || !IsEdible(old(cell.animal.kind)) ==> cell.animal == old(cell.animal)
  {
    if cell.animal != null {
      var animal := cell.animal;
      if IsEdible(animal.kind) {
        eater.AddEnergy(animal.energy);
        cell.RemoveAnimal();
      }
    }
  }
}
