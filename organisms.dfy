/**
 * Organisms: the three species, their energy tables, and the `Organism` object
 * (energy, alive flag, position) with its energy operations.
 */
module Organisms {
  import opened Wrappers
  import opened Positions

  datatype Species = Plant | Herbivore | Carnivore

  predicate IsAnimal(kind: Species)
  {
    kind != Plant
  }

  /** Only plants and herbivores implement `Edible`; a carnivore is never eaten. */
  predicate IsEdible(kind: Species)
  {
    kind != Carnivore
  }

  /** `MAX_ENERGY` of each species. */
  function MaxEnergy(kind: Species): int
  {
    match kind
    case Plant => 3
    case Herbivore => 10
    case Carnivore => 20
  }

  /** Energy of a newly built organism and of an offspring: `new Plant()`, `new Herbivore(3)`, `new Carnivore(5)`. */
  function DefaultEnergy(kind: Species): int
  {
    match kind
    case Plant => 1
    case Herbivore => 3
    case Carnivore => 5
  }

  /** `REPRODUCTION_THRESHOLD` of the animals; a plant reproduces only at its maximum. */
  function ReproductionThreshold(kind: Species): int
  {
    match kind
    case Plant => MaxEnergy(Plant)
    case Herbivore => 7
    case Carnivore => 14
  }

  /** `VISION_RANGE` as a neighbourhood level (1 cross, 2 square 3x3, 3 square 5x5). */
  function VisionRange(kind: Species): int
    requires IsAnimal(kind)
  {
    if kind == Herbivore then 2 else 3
  }

  /** `MOVEMENT_RANGE` of both animals: the 3x3 square. */
  const MovementRange: int := 2

  /** An organism as a value: what `Organism`'s fields hold at one moment. */
  datatype OrganismState = OrganismState(kind: Species, energy: int, alive: bool, position: Option<Position>)

  /** The energy invariant every organism keeps: `0 <= energy <= MAX_ENERGY`, alive exactly when energy is positive. */
  predicate ValidEnergy(o: OrganismState)
  {
    0 <= o.energy <= MaxEnergy(o.kind) && (o.alive <==> o.energy > 0)
  }

  function Min(a: int, b: int): int
  {
    if a <= b then a else b
  }

  function Max(a: int, b: int): int
  {
    if a >= b then a else b
  }

  /** A species constructor `X(energy)`: energy clamped to `[1, MAX_ENERGY]`, alive, not yet placed. */
  function Born(kind: Species, requested: int): (o: OrganismState)
    ensures ValidEnergy(o) && o.alive && o.kind == kind && o.position == None
    ensures 1 <= o.energy
    ensures 1 <= requested <= MaxEnergy(kind) ==> o.energy == requested
    ensures requested < 1 ==> o.energy == 1
    ensures requested > MaxEnergy(kind) ==> o.energy == MaxEnergy(kind)
  {
    OrganismState(kind, Min(Max(1, requested), MaxEnergy(kind)), true, None)
  }

  /** `reproduce()`: a fresh organism of the same species with its default energy. */
  function Offspring(kind: Species): (o: OrganismState)
    ensures ValidEnergy(o) && o.alive && o.kind == kind && o.position == None
    ensures o.energy == DefaultEnergy(kind)
    ensures o.energy < ReproductionThreshold(kind)
  {
    Born(kind, DefaultEnergy(kind))
  }

  /** `setEnergy(v)`: a non-positive value kills the organism and leaves no debt. */
  function AfterSetEnergy(o: OrganismState, v: int): (r: OrganismState)
    ensures r.kind == o.kind && r.position == o.position
    ensures r.alive <==> v > 0
    ensures r.energy == if v > 0 then v else 0
  {
    o.(energy := Max(v, 0), alive := v > 0)
  }

  /** The mathematical value `v` fits in a Java `int`. */
  predicate FitsInt32(v: int)
  {
    IntMin <= v <= IntMax
  }

  /**
   * The `Energetic` default `addEnergy`: `energy + delta` in 32-bit `int`
   * arithmetic, then `setEnergy`; no cap.
   */
  function AfterDefaultAddEnergy(o: OrganismState, delta: int): (r: OrganismState)
    ensures r.kind == o.kind && r.position == o.position
    ensures FitsInt32(o.energy + delta) ==> (r.alive <==> o.energy + delta > 0) && r.energy == Max(o.energy + delta, 0)
  {
    AfterSetEnergy(o, WrapInt32(o.energy + delta))
  }

  /**
   * Every species' `addEnergy`: `Math.min(MAX_ENERGY, energy + amount)` with the
   * sum in 32-bit `int` arithmetic, then `setEnergy`.
   */
  function AfterAddEnergy(o: OrganismState, amount: int): (r: OrganismState)
    ensures ValidEnergy(r)
    ensures r.kind == o.kind && r.position == o.position
    ensures FitsInt32(o.energy + amount) && 0 < o.energy + amount <= MaxEnergy(o.kind) ==> r.energy == o.energy + amount
    ensures FitsInt32(o.energy + amount) && o.energy + amount >= MaxEnergy(o.kind) ==> r.energy == MaxEnergy(o.kind) && r.alive
    ensures FitsInt32(o.energy + amount) && o.energy + amount <= 0 ==> r.energy == 0 && !r.alive
  {
    AfterSetEnergy(o, Min(MaxEnergy(o.kind), WrapInt32(o.energy + amount)))
  }

  /**
   * `subEnergy(cost)`, the `Energetic` default and the plant's: `energy - cost`
   * in 32-bit `int` arithmetic, then `setEnergy`, so never below zero.
   */
  function AfterSubEnergy(o: OrganismState, cost: int): (r: OrganismState)
    ensures r.kind == o.kind && r.position == o.position
    ensures FitsInt32(o.energy - cost) ==> (r.alive <==> o.energy > cost)
    ensures FitsInt32(o.energy - cost) && o.energy > cost ==> r.energy == o.energy - cost
    ensures FitsInt32(o.energy - cost) && o.energy <= cost ==> r.energy == 0
  {
    AfterSetEnergy(o, WrapInt32(o.energy - cost))
  }

  /**
   * The sum in `addEnergy` wraps: a herbivore at 9 given `Integer.MAX_VALUE`
   * computes `min(10, -2147483640)` and dies with energy 0.
   */
  lemma AddEnergyWrapKills()
    ensures var r := AfterAddEnergy(OrganismState(Herbivore, 9, true, None), IntMax);
      r.energy == 0 && !r.alive
  {
    var w := WrapInt32(9 + IntMax);
    assert w == 9 + IntMax - 0x1_0000_0000 by {
      assert (w - (9 + IntMax)) % 0x1_0000_0000 == 0;
    }
  }

  /** `grow`: a living organism gains one unit up to its maximum; a dead one does not change. */
  function AfterGrow(o: OrganismState): (r: OrganismState)
    requires ValidEnergy(o)
    ensures ValidEnergy(r) && r.kind == o.kind && r.position == o.position
    ensures !o.alive ==> r == o
    ensures o.alive && o.energy < MaxEnergy(o.kind) ==> r.energy == o.energy + 1 && r.alive
    ensures o.energy == MaxEnergy(o.kind) ==> r == o
  {
    if o.alive then AfterAddEnergy(o, 1) else o
  }

  /** `nutrition()`: what eating the organism yields is its current energy. */
  function Nutrition(o: OrganismState): int
    requires IsEdible(o.kind)
  {
    o.energy
  }

  /** The energy part of `canReproduce`: alive and at the threshold (a plant: exactly at its maximum). */
  predicate HasReproductionEnergy(o: OrganismState)
  {
    o.alive && (if o.kind == Plant then o.energy == MaxEnergy(Plant) else o.energy >= ReproductionThreshold(o.kind))
  }

  /** A parent after a successful `spawn`: a plant drops back to 1, an animal loses half its energy. */
  function AfterSpawnParent(o: OrganismState): (r: OrganismState)
    requires ValidEnergy(o) && HasReproductionEnergy(o)
    ensures ValidEnergy(r) && r.alive && r.kind == o.kind && r.position == o.position
    ensures o.kind == Plant ==> r.energy == 1
    ensures IsAnimal(o.kind) ==> r.energy + o.energy / 2 == o.energy
    ensures !HasReproductionEnergy(r)
  {
    if o.kind == Plant then AfterSetEnergy(o, 1) else AfterSubEnergy(o, o.energy / 2)
  }

  /** A capped add is the default add whenever the `int` sum stays at or below the cap. */
  lemma AddEnergyAgreesBelowCap(o: OrganismState, amount: int)
    requires WrapInt32(o.energy + amount) <= MaxEnergy(o.kind)
    ensures AfterAddEnergy(o, amount) == AfterDefaultAddEnergy(o, amount)
  {
  }

  /** Subtracting is adding the opposite, through the uncapped default. */
  lemma SubEnergyIsNegativeAdd(o: OrganismState, cost: int)
    ensures AfterSubEnergy(o, cost) == AfterDefaultAddEnergy(o, -cost)
  {
  }

  /** Paying a non-negative `int` cost keeps the energy invariant and never raises the energy. */
  lemma SubEnergyKeepsValid(o: OrganismState, cost: Int32)
    requires ValidEnergy(o) && cost >= 0
    ensures FitsInt32(o.energy - cost)
    ensures ValidEnergy(AfterSubEnergy(o, cost))
    ensures AfterSubEnergy(o, cost).energy <= o.energy
  {
  }

  function GrowTimes(o: OrganismState, n: nat): (r: OrganismState)
    requires ValidEnergy(o)
    ensures ValidEnergy(r) && r.kind == o.kind && r.position == o.position && r.alive == o.alive
    decreases n
  {
    if n == 0 then o else GrowTimes(AfterGrow(o), n - 1)
  }

  /** A living organism that grows `n` times ends at `min(energy + n, MAX_ENERGY)`: growth saturates. */
  lemma {:induction false} GrowSaturates(o: OrganismState, n: nat)
    requires ValidEnergy(o) && o.alive
    ensures GrowTimes(o, n).energy == Min(o.energy + n, MaxEnergy(o.kind))
    decreases n
  {
    if n > 0 {
      GrowSaturates(AfterGrow(o), n - 1);
    }
  }

  /** The `Organism` object: a species, an energy pool, an alive flag and a position. */
  class Organism {
    const kind: Species
    var energy: int
    var alive: bool
    var position: Option<Position>

    function State(): OrganismState
      reads this
    {
      OrganismState(kind, energy, alive, position)
    }

    /** `Plant(energy)`, `Herbivore(energy)`, `Carnivore(energy)`; the no-argument constructors pass the default energy. */
    constructor (kind: Species, requested: int)
      ensures State() == Born(kind, requested)
    {
      this.kind := kind;
      energy := Min(Max(1, requested), MaxEnergy(kind));
      alive := true;
      position := None;
    }

    method SetPosition(p: Option<Position>)
      modifies this
      ensures State() == old(State()).(position := p)
    {
      position := p;
    }

    method SetEnergy(value: int)
      modifies this
      ensures State() == AfterSetEnergy(old(State()), value)
    {
      energy := Max(value, 0);
      alive := value > 0;
    }

    method AddEnergy(amount: int)
      modifies this
      ensures State() == AfterAddEnergy(old(State()), amount)
    {
      SetEnergy(Min(MaxEnergy(kind), WrapInt32(energy + amount)));
    }

    method SubEnergy(cost: int)
      modifies this
      ensures State() == AfterSubEnergy(old(State()), cost)
    {
      SetEnergy(WrapInt32(energy - cost));
    }

    /** `Plant.grow`. */
    method Grow()
      requires kind == Plant && ValidEnergy(State())
      modifies this
      ensures State() == AfterGrow(old(State()))
    {
      if alive {
        AddEnergy(1);
      }
    }

    method Reproduce() returns (child: Organism)
      ensures fresh(child) && child.State() == Offspring(kind)
    {
      child := new Organism(kind, DefaultEnergy(kind));
    }
  }
}
