/**
 * The carnivore's choices. It hunts the first herbivore of its 5x5 view and
 * steps one cell towards it, along the axis of the larger coordinate
 * difference or diagonally when both are equal; with no prey in view it moves
 * to a random completely empty cell of its 3x3 movement square. It eats
 * herbivores only.
 */
module Carnivores {
  import opened Wrappers
  import opened Positions
  import opened Organisms
  import opened Cells
  import opened Grids
  import opened Worlds
  import opened Randomness
  import opened Eaters
  import opened Animals

  /** What the carnivore at `at` perceives. */
  function View(g: Grid, at: Position): seq<Position>
  {
    Perceived(g.width, g.height, at, Carnivore)
  }

  /** `chooseHunt` on values: the first perceived cell, in perception order, holding a herbivore. */
  function HuntTarget(g: Grid, at: Position): Option<Position>
    requires WellFormed(g)
  {
    var prey := Candidates(g, View(g, at), HasHerbivore);
    if prey == [] then None else Some(prey[0])
  }

  /** The first matching position of a filtered list is the first position of the list that matches. */
  lemma {:induction false} FirstCandidate(g: Grid, ps: seq<Position>, f: NeighborFilter)
    requires WellFormed(g) && Candidates(g, ps, f) != []
    ensures exists k ::
      0 <= k < |ps| && ps[k] == Candidates(g, ps, f)[0] &&
      CellAt(g, ps[k]).Some? && MatchesFilter(CellAt(g, ps[k]).value, f) &&
      forall j :: 0 <= j < k ==> !(CellAt(g, ps[j]).Some? && MatchesFilter(CellAt(g, ps[j]).value, f))
    decreases |ps|
  {
    var c := CellAt(g, ps[0]);
    if c.Some? && MatchesFilter(c.value, f) {
      assert ps[0] == Candidates(g, ps, f)[0];
    } else {
      assert Candidates(g, ps, f) == Candidates(g, ps[1..], f);
      FirstCandidate(g, ps[1..], f);
      var k :| 0 <= k < |ps[1..]| && ps[1..][k] == Candidates(g, ps[1..], f)[0] &&
        CellAt(g, ps[1..][k]).Some? && MatchesFilter(CellAt(g, ps[1..][k]).value, f) &&
        forall j :: 0 <= j < k ==> !(CellAt(g, ps[1..][j]).Some? && MatchesFilter(CellAt(g, ps[1..][j]).value, f));
      assert ps[k + 1] == ps[1..][k];
      forall j | 0 <= j < k + 1
        ensures !(CellAt(g, ps[j]).Some? && MatchesFilter(CellAt(g, ps[j]).value, f))
      {
        if j > 0 {
          assert ps[j] == ps[1..][j - 1];
        }
      }
    }
  }

  /** `chooseHunt` finds nothing exactly when no perceived cell holds a herbivore. */
  lemma HuntTargetNoneIff(g: Grid, at: Position)
    requires WellFormed(g)
    ensures HuntTarget(g, at).None? <==>
      forall q :: q in View(g, at) && CellAt(g, q).Some? ==> !MatchesFilter(CellAt(g, q).value, HasHerbivore)
  {
    CandidatesNonEmpty(g, View(g, at), HasHerbivore);
  }

  /** The prey `chooseHunt` picks is the perceived herbivore that comes first in perception order. */
  lemma HuntTargetIsFirstPrey(g: Grid, at: Position)
    requires WellFormed(g) && HuntTarget(g, at).Some?
    ensures var vs := View(g, at);
      exists k ::
        0 <= k < |vs| && vs[k] == HuntTarget(g, at).value &&
        CellAt(g, vs[k]).Some? && MatchesFilter(CellAt(g, vs[k]).value, HasHerbivore) &&
        forall j :: 0 <= j < k ==> !(CellAt(g, vs[j]).Some? && MatchesFilter(CellAt(g, vs[j]).value, HasHerbivore))
  {
    FirstCandidate(g, View(g, at), HasHerbivore);
  }

  /** The unit step, -1, 0 or 1, that moves a coordinate towards a target at signed difference `d`. */
  function Sign(d: int): (r: int)
    ensures -1 <= r <= 1 && (r == 0 <==> d == 0) && r * d >= 0
  {
    if d > 0 then 1 else if d < 0 then -1 else 0
  }

  /** The directional step of `chooseMove` from `at` towards `prey`: along the axis of the larger difference, diagonal on a tie. */
  function ChaseStep(at: Position, prey: Position): (r: Position)
    ensures Abs(r.x - at.x) <= 1 && Abs(r.y - at.y) <= 1
  {
    var dx := prey.x - at.x;
    var dy := prey.y - at.y;
    if Abs(dx) > Abs(dy) then Position(at.x + Sign(dx), at.y)
    else if Abs(dy) > Abs(dx) then Position(at.x, at.y + Sign(dy))
    else Position(at.x + Sign(dx), at.y + Sign(dy))
  }

  /** Each chase step strictly closes the Manhattan distance to the prey and never stays put. */
  lemma ChaseStepCloser(at: Position, prey: Position)
    requires at != prey
    ensures Distance(ChaseStep(at, prey), prey) < Distance(at, prey)
    ensures ChaseStep(at, prey) != at
  {
  }

  /** A chase step lies between the chaser and its prey, so it stays in a world holding both. */
  lemma ChaseStepInBounds(width: Coord, height: Coord, at: Position, prey: Position)
    requires InBounds(width, height, at.x, at.y) && InBounds(width, height, prey.x, prey.y)
    ensures InBounds(width, height, ChaseStep(at, prey).x, ChaseStep(at, prey).y)
  {
  }

  /** From (2,2) towards prey at (2,4) the carnivore goes to (2,3). */
  lemma ChaseAlongColumn()
    ensures ChaseStep(Position(2, 2), Position(2, 4)) == Position(2, 3)
  {
  }

  /**
   * `chooseMove` on values, for the carnivore standing at `self` and moving
   * from `pos`: with prey in view, the cell of the chase step (when it is in
   * the world); otherwise a random completely empty cell of the 3x3 square.
   * Only the random fallback draws from the generator.
   */
  function CarnivoreMove(s: Rng, g: Grid, self: Position, pos: Position): (r: (Option<Position>, Rng))
    requires WellFormed(g)
  {
    match HuntTarget(g, self)
    case Some(prey) =>
      var step := ChaseStep(pos, prey);
      (if InBounds(g.width, g.height, step.x, step.y) then Some(step) else None, s)
    case None =>
      var (q, s') := RandomNeighborOf(s, g, pos, MovementRange, Empty);
      if q.Ok? then (q.value, s') else (None, s)
  }

  /** With prey in view the carnivore draws nothing and takes the chase step, which brings it strictly closer. */
  lemma CarnivoreChases(s: Rng, g: Grid, at: Position)
    requires WellFormed(g) && InBounds(g.width, g.height, at.x, at.y) && HuntTarget(g, at).Some?
    ensures var prey := HuntTarget(g, at).value;
      CarnivoreMove(s, g, at, at) == (Some(ChaseStep(at, prey)), s) &&
      Distance(ChaseStep(at, prey), prey) < Distance(at, prey)
  {
    var prey := HuntTarget(g, at).value;
    CandidatesMembership(g, View(g, at), HasHerbivore, prey);
    PerceivedMembership(g.width, g.height, at, Carnivore, prey);
    ChaseStepInBounds(g.width, g.height, at, prey);
    ChaseStepCloser(at, prey);
  }

  /** With no prey in view, any move is to a completely empty cell of the 3x3 square other than its own. */
  lemma CarnivoreWanders(s: Rng, g: Grid, at: Position)
    requires WellFormed(g) && HuntTarget(g, at).None?
    ensures var r := CarnivoreMove(s, g, at, at);
      (r.0.None? ==> r.1 == s) &&
      (r.0.Some? ==>
        InBounds(g.width, g.height, r.0.value.x, r.0.value.y) && r.0.value != at &&
        Abs(r.0.value.x - at.x) <= 1 && Abs(r.0.value.y - at.y) <= 1 &&
        CellAt(g, r.0.value).value.IsCompletelyEmpty())
  {
    var r := CarnivoreMove(s, g, at, at);
    if r.0.Some? {
      RandomNeighborIsMatchingNeighbor(s, g, at, MovementRange, Empty);
      NeighborhoodMembership(at, g.width, g.height, MovementRange, r.0.value);
    }
  }

  /** Wherever the carnivore goes, it is a cell of its 3x3 square other than its own. */
  lemma CarnivoreMoveIsNeighbor(s: Rng, g: Grid, at: Position)
    requires WellFormed(g)
    ensures var r := CarnivoreMove(s, g, at, at).0;
      r.Some? ==>
        InBounds(g.width, g.height, r.value.x, r.value.y) && r.value != at &&
        Abs(r.value.x - at.x) <= 1 && Abs(r.value.y - at.y) <= 1
  {
    if HuntTarget(g, at).Some? {
      var prey := HuntTarget(g, at).value;
      CandidatesMembership(g, View(g, at), HasHerbivore, prey);
      PerceivedMembership(g.width, g.height, at, Carnivore, prey);
      ChaseStepCloser(at, prey);
    } else {
      CarnivoreWanders(s, g, at);
    }
  }

  /** `canEat`: true exactly for an existing cell whose animal is a herbivore (the `null` cell included as `None`). */
  function CanEat(c: Option<CellState>): (r: bool)
    ensures r <==> c.Some? && MatchesFilter(c.value, HasHerbivore)
    ensures r ==> IsEdible(c.value.animal.value.kind)
  {
    c.Some? && c.value.animal.Some? && c.value.animal.value.kind == Herbivore
  }

  /** `eat`: `consumeAnimal` on the target cell when it holds a herbivore; anything else is left alone. */
  method Eat(carnivore: Organism, cell: Cell)
    requires carnivore.kind == Carnivore
    requires cell.plant == null || cell.plant.kind == Plant
    modifies carnivore, cell
    ensures CanEat(Some(old(cell.State()))) ==>
      carnivore.State() == AnimalMeal(old(carnivore.State()), old(cell.State())).0 && cell.animal == null
    ensures !CanEat(Some(old(cell.State()))) ==> carnivore.State() == old(carnivore.State()) && cell.animal == old(cell.animal)
    ensures cell.plant == old(cell.plant)
  {
    if cell.animal != null && cell.animal.kind == Herbivore {
      ConsumeAnimal(carnivore, cell);
    }
  }

  /** `chooseMove` on the objects: the chosen cell of the world, or `null`. */
  method ChooseMove(carnivore: Organism, world: World, random: RandomGenerator, pos: Position) returns (dest: Cell?)
    requires world.Valid() && carnivore.position.Some?
    modifies random
    ensures (PositionOf(dest), random.rng) == CarnivoreMove(old(random.rng), world.State(), carnivore.position.value, pos)
    ensures dest != null ==> dest in world.Cells()
  {
    var g := world.State();
    var prey := HuntTarget(g, carnivore.position.value);
    if prey.Some? {
      dest := world.GetCell(ChaseStep(pos, prey.value));
      return;
    }
    var q := random.RandomNeighborInRange(pos, world, MovementRange);
    assert world.State() == g;
    if q.Ok? && q.value.Some? {
      RandomNeighborIsMatchingNeighbor(old(random.rng), g, pos, MovementRange, Empty);
      dest := world.GetCell(q.value.value);
    } else {
      dest := null;
    }
  }
}
