/**
 * The herbivore's choices. It flees when it perceives a carnivore, to the
 * free perceived cell farthest from the nearest carnivore it sees; otherwise it
 * seeks the perceived plant of highest energy whose cell has room for it;
 * otherwise it moves to a random completely empty cell of its 3x3 movement
 * square. It eats plants.
 */
module Herbivores {
  import opened Wrappers
  import opened Positions
  import opened Organisms
  import opened Cells
  import opened Grids
  import opened Worlds
  import opened Randomness
  import opened Eaters
  import opened Animals

  /** The first position of highest score among `ps`, scanning from the front; `None` for an empty list. */
  function Best(ps: seq<Position>, score: Position -> int): (r: Option<Position>)
    ensures r.None? <==> ps == []
    ensures r.Some? ==> r.value in ps && forall q :: q in ps ==> score(q) <= score(r.value)
    decreases |ps|
  {
    if ps == [] then None
    else
      var rest := Best(ps[1..], score);
      if rest.None? || score(ps[0]) >= score(rest.value) then Some(ps[0]) else rest
  }

  /** Ties go to the earliest position: everything before the chosen one scores strictly less. */
  lemma {:induction false} BestIsFirst(ps: seq<Position>, score: Position -> int)
    requires ps != []
    ensures exists k ::
      0 <= k < |ps| && ps[k] == Best(ps, score).value && forall j :: 0 <= j < k ==> score(ps[j]) < score(ps[k])
    decreases |ps|
  {
    var rest := Best(ps[1..], score);
    if rest.None? || score(ps[0]) >= score(rest.value) {
      assert ps[0] == Best(ps, score).value;
    } else {
      BestIsFirst(ps[1..], score);
      var k :| 0 <= k < |ps[1..]| && ps[1..][k] == rest.value && forall j :: 0 <= j < k ==> score(ps[1..][j]) < score(ps[1..][k]);
      assert ps[k + 1] == Best(ps, score).value;
      forall j | 0 <= j < k + 1
        ensures score(ps[j]) < score(ps[k + 1])
      {
        if j > 0 {
          assert ps[j] == ps[1..][j - 1];
        }
      }
    }
  }

  /** What the herbivore at `at` perceives. */
  function View(g: Grid, at: Position): seq<Position>
  {
    Perceived(g.width, g.height, at, Herbivore)
  }

  /** The threats `chooseFlee` reacts to: the perceived carnivores, in perception order. */
  function Predators(g: Grid, at: Position): seq<Position>
    requires WellFormed(g)
  {
    Candidates(g, View(g, at), HasCarnivore)
  }

  /** The Manhattan distance from `q` to the nearest of `ps`. */
  function NearestDistance(q: Position, ps: seq<Position>): (d: int)
    requires ps != []
    ensures forall p :: p in ps ==> d <= Distance(q, p)
    ensures exists p :: p in ps && d == Distance(q, p)
    decreases |ps|
  {
    if |ps| == 1 then Distance(q, ps[0])
    else
      var rest := NearestDistance(q, ps[1..]);
      assert forall p :: p in ps[1..] ==> p in ps;
      if Distance(q, ps[0]) <= rest then Distance(q, ps[0]) else rest
  }

  /** `chooseFlee` on values: the free perceived cell farthest from the nearest predator, `None` without a predator or a free cell. */
  function FleeTarget(g: Grid, at: Position): (r: Option<Position>)
    requires WellFormed(g)
  {
    var threats := Predators(g, at);
    if threats == [] then None
    else Best(Candidates(g, View(g, at), EmptyAnimal), q => NearestDistance(q, threats))
  }

  /** The predators are exactly the perceived cells holding a carnivore. */
  lemma PredatorsMembership(g: Grid, at: Position, q: Position)
    requires WellFormed(g)
    ensures q in Predators(g, at) <==>
      q in View(g, at) && CellAt(g, q).Some? && MatchesFilter(CellAt(g, q).value, HasCarnivore)
  {
    CandidatesMembership(g, View(g, at), HasCarnivore, q);
  }

  /** A flee target is a perceived cell whose animal slot is free. */
  lemma FleeTargetIsFree(g: Grid, at: Position)
    requires WellFormed(g) && FleeTarget(g, at).Some?
    ensures FleeTarget(g, at).value in View(g, at)
    ensures CellAt(g, FleeTarget(g, at).value).Some? && CellAt(g, FleeTarget(g, at).value).value.animal.None?
  {
    CandidatesMembership(g, View(g, at), EmptyAnimal, FleeTarget(g, at).value);
  }

  /**
   * `chooseFlee`: `None` when no carnivore is perceived; otherwise a perceived
   * cell with a free animal slot that no other such cell beats in Manhattan
   * distance to the nearest predator, or `None` when there is no such cell.
   */
  lemma FleeTargetSpec(g: Grid, at: Position)
    requires WellFormed(g)
    ensures Predators(g, at) == [] ==> FleeTarget(g, at).None?
    ensures Predators(g, at) != [] ==>
      (FleeTarget(g, at).None? <==>
        forall q :: q in View(g, at) && CellAt(g, q).Some? ==> CellAt(g, q).value.animal.Some?)
    ensures Predators(g, at) != [] && FleeTarget(g, at).Some? ==>
      var t := FleeTarget(g, at).value;
      forall q :: q in View(g, at) && CellAt(g, q).Some? && CellAt(g, q).value.animal.None? ==>
        NearestDistance(q, Predators(g, at)) <= NearestDistance(t, Predators(g, at))
  {
    var threats := Predators(g, at);
    if threats != [] {
      var free := Candidates(g, View(g, at), EmptyAnimal);
      CandidatesNonEmpty(g, View(g, at), EmptyAnimal);
      if free != [] {
        var t := FleeTarget(g, at).value;
        forall q | q in View(g, at) && CellAt(g, q).Some? && CellAt(g, q).value.animal.None?
          ensures NearestDistance(q, threats) <= NearestDistance(t, threats)
        {
          CandidatesMembership(g, View(g, at), EmptyAnimal, q);
        }
      }
    }
  }

  /** The energy of the plant at `q`, 0 where there is none. */
  function PlantEnergyAt(g: Grid, q: Position): int
    requires WellFormed(g)
  {
    var c := CellAt(g, q);
    if c.Some? && c.value.plant.Some? then c.value.plant.value.energy else 0
  }

  /** The perceived cells a herbivore could walk onto to eat: a plant and a free animal slot. */
  function Pastures(g: Grid, at: Position): seq<Position>
    requires WellFormed(g)
  {
    Candidates(g, Candidates(g, View(g, at), HasPlant), EmptyAnimal)
  }

  /** The seeking part of `chooseMove`: the reachable perceived plant of highest energy. */
  function SeekTarget(g: Grid, at: Position): (r: Option<Position>)
    requires WellFormed(g)
  {
    Best(Pastures(g, at), q => PlantEnergyAt(g, q))
  }

  /** Where the herbivore may graze: exactly the perceived cells holding a plant and no animal. */
  lemma PasturesMembership(g: Grid, at: Position, q: Position)
    requires WellFormed(g)
    ensures q in Pastures(g, at) <==>
      q in View(g, at) && CellAt(g, q).Some? && CellAt(g, q).value.plant.Some? && CellAt(g, q).value.animal.None?
  {
    CandidatesMembership(g, Candidates(g, View(g, at), HasPlant), EmptyAnimal, q);
    CandidatesMembership(g, View(g, at), HasPlant, q);
  }

  /** A seek target is a perceived plant whose cell has a free animal slot. */
  lemma SeekTargetIsFree(g: Grid, at: Position)
    requires WellFormed(g) && SeekTarget(g, at).Some?
    ensures SeekTarget(g, at).value in View(g, at)
    ensures CellAt(g, SeekTarget(g, at).value).Some? && CellAt(g, SeekTarget(g, at).value).value.animal.None?
    ensures CellAt(g, SeekTarget(g, at).value).value.plant.Some?
  {
    PasturesMembership(g, at, SeekTarget(g, at).value);
  }

  /**
   * Seeking targets a plant of maximal energy among the perceived plants
   * whose cell has a free animal slot, or nothing when there is no such plant.
   */
  lemma SeekTargetSpec(g: Grid, at: Position)
    requires WellFormed(g)
    ensures SeekTarget(g, at).None? <==>
      forall q :: q in View(g, at) && CellAt(g, q).Some? && CellAt(g, q).value.plant.Some? ==> CellAt(g, q).value.animal.Some?
    ensures SeekTarget(g, at).Some? ==>
      var t := SeekTarget(g, at).value;
      t in View(g, at) && CellAt(g, t).Some? && CellAt(g, t).value.plant.Some? && CellAt(g, t).value.animal.None? &&
      forall q :: q in View(g, at) && CellAt(g, q).Some? && CellAt(g, q).value.plant.Some? && CellAt(g, q).value.animal.None? ==>
        CellAt(g, q).value.plant.value.energy <= CellAt(g, t).value.plant.value.energy
  {
    var ps := Pastures(g, at);
    if ps != [] {
      PasturesMembership(g, at, ps[0]);
      var t := SeekTarget(g, at).value;
      PasturesMembership(g, at, t);
      forall q | q in View(g, at) && CellAt(g, q).Some? && CellAt(g, q).value.plant.Some? && CellAt(g, q).value.animal.None?
        ensures CellAt(g, q).value.plant.value.energy <= CellAt(g, t).value.plant.value.energy
      {
        PasturesMembership(g, at, q);
        assert PlantEnergyAt(g, q) <= PlantEnergyAt(g, t);
      }
    } else {
      forall q | q in View(g, at) && CellAt(g, q).Some? && CellAt(g, q).value.plant.Some?
        ensures CellAt(g, q).value.animal.Some?
      {
        PasturesMembership(g, at, q);
      }
    }
  }

  /**
   * `chooseMove` on values, for the herbivore standing at `self` and moving
   * from `pos`: flee, else seek, else a random empty cell of the movement
   * square. Only the random fallback draws from the generator.
   */
  function HerbivoreMove(s: Rng, g: Grid, self: Position, pos: Position): (r: (Option<Position>, Rng))
    requires WellFormed(g)
  {
    var flee := FleeTarget(g, self);
    if flee.Some? then (flee, s)
    else
      var seek := SeekTarget(g, pos);
      if seek.Some? then (seek, s)
      else
        var (q, s') := RandomNeighborOf(s, g, pos, MovementRange, Empty);
        if q.Ok? then (q.value, s') else (None, s)
  }

  /** Wherever the herbivore goes, it is a cell of its 3x3 square, other than its own, whose animal slot is free. */
  lemma HerbivoreMoveIsFreeNeighbor(s: Rng, g: Grid, at: Position)
    requires WellFormed(g)
    ensures var r := HerbivoreMove(s, g, at, at).0;
      r.Some? ==>
        InBounds(g.width, g.height, r.value.x, r.value.y) && r.value != at &&
        Abs(r.value.x - at.x) <= 1 && Abs(r.value.y - at.y) <= 1 &&
        CellAt(g, r.value).value.animal.None?
  {
    var r := HerbivoreMove(s, g, at, at).0;
    if FleeTarget(g, at).Some? {
      FleeTargetIsFree(g, at);
      PerceivedMembership(g.width, g.height, at, Herbivore, r.value);
    } else if SeekTarget(g, at).Some? {
      SeekTargetIsFree(g, at);
      PerceivedMembership(g.width, g.height, at, Herbivore, r.value);
    } else if r.Some? {
      RandomNeighborIsMatchingNeighbor(s, g, at, MovementRange, Empty);
      NeighborhoodMembership(at, g.width, g.height, MovementRange, r.value);
    }
  }

  /** With a completely empty cell in its 3x3 square, the herbivore always finds somewhere to go. */
  lemma HerbivoreMovesWhenRoom(s: Rng, g: Grid, at: Position, q: Position)
    requires WellFormed(g)
    requires q in Neighborhood(at, g.width, g.height, MovementRange).value
    requires CellAt(g, q).Some? && CellAt(g, q).value.IsCompletelyEmpty()
    ensures HerbivoreMove(s, g, at, at).0.Some?
  {
    if FleeTarget(g, at).None? && SeekTarget(g, at).None? {
      CandidatesNonEmpty(g, Neighborhood(at, g.width, g.height, MovementRange).value, Empty);
    }
  }

  /** Fleeing comes first: with a carnivore in view and a free cell to run to, the move is the flee target and draws nothing. */
  lemma FleeingComesFirst(s: Rng, g: Grid, at: Position, pos: Position)
    requires WellFormed(g) && Predators(g, at) != []
    requires exists q :: q in View(g, at) && CellAt(g, q).Some? && CellAt(g, q).value.animal.None?
    ensures HerbivoreMove(s, g, at, pos) == (FleeTarget(g, at), s) && FleeTarget(g, at).Some?
  {
    FleeTargetSpec(g, at);
  }

  /** `canEat`: true exactly for an existing cell that holds a plant (the `null` cell included as `None`). */
  function CanEat(c: Option<CellState>): (r: bool)
    ensures r <==> c.Some? && MatchesFilter(c.value, HasPlant)
  {
    c.Some? && c.value.plant.Some?
  }

  /** `eat`: `consumePlant` on the target cell. */
  method Eat(herbivore: Organism, cell: Cell)
    requires herbivore.kind == Herbivore
    requires cell.plant == null || cell.plant.kind == Plant
    modifies herbivore, cell
    ensures herbivore.State() == PlantMeal(old(herbivore.State()), old(cell.State())).0
    ensures cell.animal == old(cell.animal) && cell.plant == null
  {
    ConsumePlant(herbivore, cell);
  }

  /** `chooseMove` on the objects: the chosen cell of the world, or `null`. */
  method ChooseMove(herbivore: Organism, world: World, random: RandomGenerator, pos: Position) returns (dest: Cell?)
    requires world.Valid() && herbivore.position.Some?
    modifies random
    ensures (PositionOf(dest), random.rng) == HerbivoreMove(old(random.rng), world.State(), herbivore.position.value, pos)
    ensures dest != null ==> dest in world.Cells()
  {
    var g := world.State();
    var flee := FleeTarget(g, herbivore.position.value);
    if flee.Some? {
      FleeTargetIsFree(g, herbivore.position.value);
      PerceivedMembership(g.width, g.height, herbivore.position.value, Herbivore, flee.value);
      dest := world.GetCell(flee.value);
      return;
    }
    var seek := SeekTarget(g, pos);
    if seek.Some? {
      SeekTargetIsFree(g, pos);
      PerceivedMembership(g.width, g.height, pos, Herbivore, seek.value);
      dest := world.GetCell(seek.value);
      return;
    }
    var q := random.RandomNeighborInRange(pos, world, MovementRange);
    assert world.State() == g;
    if q.Ok? && q.value.Some? {
      RandomNeighborIsMatchingNeighbor(old(random.rng), g, pos, MovementRange, Empty);
      dest := world.GetCell(q.value.value);
    } else {
      dest := null;
    }
  }
}
