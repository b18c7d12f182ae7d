/**
 * The simulation's single source of randomness and the neighbourhood helpers
 * built on it: bounded draws, choosing from a list, Fisher-Yates shuffles,
 * vision neighbourhoods (cross, 3x3, 5x5), cell filters and `randomNeighbor`.
 *
 * The generator is a deterministic state: every draw is a function of the
 * state and returns the next state, so a fixed seed fixes every outcome.
 */
module Randomness {
  import opened Wrappers
  import opened Positions
  import opened Organisms
  import opened Cells
  import opened Grids
  import opened Worlds

  /** `DEFAULT_SEED`. */
  const DefaultSeed: int := 42

  const StateModulus: int := 0x1_0000_0000_0000
  const Multiplier: int := 0x5_DEEC_E66D
  const Increment: int := 0xB

  /** The generator's internal state (48 bits). */
  datatype Rng = Rng(state: nat)

  datatype RandomError = NonPositiveBound(bound: int) | InvalidVisionRange(visionRange: int)

  /** A generator seeded with `seed`; equal seeds give equal generators. */
  function Seeded(seed: int): (r: Rng)
    ensures r.state < StateModulus
  {
    Rng(seed % StateModulus)
  }

  function Advance(s: Rng): (r: Rng)
    ensures r.state < StateModulus
  {
    Rng((s.state * Multiplier + Increment) % StateModulus)
  }

  /** One draw of `nextInt(bound)`: a value in `[0, bound)` and the next state. */
  function DrawInt(s: Rng, bound: int): (r: (int, Rng))
    requires bound > 0
    ensures 0 <= r.0 < bound
  {
    var s' := Advance(s);
    (s'.state / 0x2_0000 % bound, s')
  }

  /** `choose`: a drawn element, or nothing (and no draw) for a missing or empty list. */
  function ChooseFrom<T>(s: Rng, xs: Option<seq<T>>): (r: (Option<T>, Rng))
    ensures r.0.None? <==> xs.None? || xs.value == []
    ensures r.0.Some? ==> r.0.value in xs.value
    ensures r.0.None? ==> r.1 == s
  {
    if xs.None? || xs.value == [] then (None, s)
    else
      var (j, s') := DrawInt(s, |xs.value|);
      (Some(xs.value[j]), s')
  }

  function Swap<T>(xs: seq<T>, i: nat, j: nat): (r: seq<T>)
    requires i < |xs| && j < |xs|
    ensures |r| == |xs| && r[i] == xs[j] && r[j] == xs[i]
    ensures forall k :: 0 <= k < |xs| && k != i && k != j ==> r[k] == xs[k]
  {
    xs[i := xs[j]][j := xs[i]]
  }

  /** A swap only reorders the elements. */
  lemma SwapPermutes<T>(xs: seq<T>, i: nat, j: nat)
    requires i < |xs| && j < |xs|
    ensures multiset(Swap(xs, i, j)) == multiset(xs)
  {
    var t := xs[i := xs[j]];
    assert multiset(t) == multiset(xs) - multiset{xs[i]} + multiset{xs[j]};
  }

  /**
   * The downward Fisher-Yates pass from index `i`: swap `i` with a drawn index in
   * `[0, i]`, then continue at `i - 1`.
   */
  function ShuffleFrom<T>(xs: seq<T>, i: int, s: Rng): (r: (seq<T>, Rng))
    requires i < |xs|
    ensures |r.0| == |xs|
    decreases i
  {
    if i <= 0 then (xs, s)
    else
      var (j, s') := DrawInt(s, i + 1);
      ShuffleFrom(Swap(xs, i, j), i - 1, s')
  }

  /** The pass only ever reorders the elements. */
  lemma {:induction false} ShuffleFromPermutes<T>(xs: seq<T>, i: int, s: Rng)
    requires i < |xs|
    ensures multiset(ShuffleFrom(xs, i, s).0) == multiset(xs)
    decreases i
  {
    if i > 0 {
      var (j, s') := DrawInt(s, i + 1);
      SwapPermutes(xs, i, j);
      ShuffleFromPermutes(Swap(xs, i, j), i - 1, s');
    }
  }

  /** One swap of the pass: the drawn index for `i`, the swap, then the pass from `i - 1`. */
  lemma ShuffleFromStep<T>(xs: seq<T>, i: int, s: Rng)
    requires 0 < i < |xs|
    ensures ShuffleFrom(xs, i, s) == ShuffleFrom(Swap(xs, i, DrawInt(s, i + 1).0), i - 1, DrawInt(s, i + 1).1)
  {
  }

  /** A whole shuffle: the pass from the last index. */
  function Shuffled<T>(xs: seq<T>, s: Rng): (r: (seq<T>, Rng))
    ensures |r.0| == |xs|
  {
    ShuffleFrom(xs, |xs| - 1, s)
  }

  /** A shuffle is a permutation of its input. */
  lemma ShuffledPermutes<T>(xs: seq<T>, s: Rng)
    ensures multiset(Shuffled(xs, s).0) == multiset(xs)
  {
    ShuffleFromPermutes(xs, |xs| - 1, s);
  }

  /** `NeighborFilter`. */
  datatype NeighborFilter = Empty | EmptyAnimal | EmptyPlant | HasOrganism | HasPlant | HasAnimal | HasHerbivore | HasCarnivore

  /** `matchesFilter`. */
  predicate MatchesFilter(c: CellState, f: NeighborFilter)
  {
    match f
    case Empty => c.IsCompletelyEmpty()
    case EmptyAnimal => c.IsEmptyAnimal()
    case EmptyPlant => c.IsEmptyPlant()
    case HasOrganism => c.HasPlant() || c.HasAnimal()
    case HasPlant => c.HasPlant()
    case HasAnimal => c.HasAnimal()
    case HasHerbivore => c.animal.Some? && c.animal.value.kind == Herbivore
    case HasCarnivore => c.animal.Some? && c.animal.value.kind == Carnivore
  }

  /** How the filters relate: each of them is determined by the two slots. */
  lemma FilterRelations(c: CellState)
    requires ValidCell(c)
    ensures MatchesFilter(c, Empty) <==> MatchesFilter(c, EmptyAnimal) && MatchesFilter(c, EmptyPlant)
    ensures MatchesFilter(c, HasOrganism) <==> !MatchesFilter(c, Empty)
    ensures MatchesFilter(c, HasAnimal) <==> !MatchesFilter(c, EmptyAnimal)
    ensures MatchesFilter(c, HasPlant) <==> !MatchesFilter(c, EmptyPlant)
    ensures MatchesFilter(c, HasAnimal) <==> MatchesFilter(c, HasHerbivore) || MatchesFilter(c, HasCarnivore)
    ensures !(MatchesFilter(c, HasHerbivore) && MatchesFilter(c, HasCarnivore))
  {
  }

  /** Offsets of vision level 1, in source order: up, down, left, right. */
  const CrossDeltas: seq<Delta> := [(0, -1), (0, 1), (-1, 0), (1, 0)]

  /** Offsets `(dx, dy)` for `dy` from `dy0` to `r`, skipping the centre. */
  function Column(r: nat, dx: int, dy0: int): seq<Delta>
    decreases r + 1 - dy0
  {
    if dy0 > r then [] else (if dx == 0 && dy0 == 0 then [] else [(dx, dy0)]) + Column(r, dx, dy0 + 1)
  }

  /** Offsets of the square of radius `r` for `dx` from `dx0` to `r`, column by column. */
  function Square(r: nat, dx0: int): seq<Delta>
    decreases r + 1 - dx0
  {
    if dx0 > r then [] else Column(r, dx0, -(r as int)) + Square(r, dx0 + 1)
  }

  /** A column from row `dy0` on holds exactly its offsets up to row `r`, without the centre. */
  lemma {:induction false} ColumnMembership(r: nat, dx: int, dy0: int, d: Delta)
    ensures d in Column(r, dx, dy0) <==> d.0 == dx && dy0 <= d.1 <= r && d != (0, 0)
    decreases r + 1 - dy0
  {
    if dy0 <= r {
      ColumnMembership(r, dx, dy0 + 1, d);
    }
  }

  /** Every offset of the square from column `dx0` on, other than the centre, is listed. */
  lemma {:induction false} SquareHas(r: nat, dx0: int, d: Delta)
    requires dx0 <= d.0 <= r && -(r as int) <= d.1 <= r && d != (0, 0)
    ensures d in Square(r, dx0)
    decreases r + 1 - dx0
  {
    if d.0 == dx0 {
      ColumnMembership(r, dx0, -(r as int), d);
    } else {
      SquareHas(r, dx0 + 1, d);
    }
  }

  /** Only offsets of the square from column `dx0` on, other than the centre, are listed. */
  lemma {:induction false} SquareOnly(r: nat, dx0: int, d: Delta)
    requires d in Square(r, dx0)
    ensures dx0 <= d.0 <= r && -(r as int) <= d.1 <= r && d != (0, 0)
    decreases r + 1 - dx0
  {
    if dx0 > r {
      assert false;
    } else if d in Column(r, dx0, -(r as int)) {
      ColumnMembership(r, dx0, -(r as int), d);
    } else {
      SquareOnly(r, dx0 + 1, d);
    }
  }

  /** The columns from `dx0` to `r` hold exactly the offsets of those columns within distance `r`, without the centre. */
  lemma SquareMembership(r: nat, dx0: int, d: Delta)
    ensures d in Square(r, dx0) <==> dx0 <= d.0 <= r && -(r as int) <= d.1 <= r && d != (0, 0)
  {
    if d in Square(r, dx0) {
      SquareOnly(r, dx0, d);
    }
    if dx0 <= d.0 <= r && -(r as int) <= d.1 <= r && d != (0, 0) {
      SquareHas(r, dx0, d);
    }
  }

  /** One row of a column scan: the offset `(dx, dy)` (unless it is the centre), then the rest of the column. */
  lemma ColumnStep(width: Coord, height: Coord, c: Position, r: nat, dx: int, dy: int)
    requires dy <= r
    ensures Shifted(width, height, c, Column(r, dx, dy)) ==
      (if dx == 0 && dy == 0 then [] else ShiftOne(width, height, c, (dx, dy))) + Shifted(width, height, c, Column(r, dx, dy + 1))
  {
    var here: seq<Delta> := if dx == 0 && dy == 0 then [] else [(dx, dy)];
    assert Column(r, dx, dy) == here + Column(r, dx, dy + 1);
    ShiftedAppend(width, height, c, here, Column(r, dx, dy + 1));
    assert Shifted(width, height, c, here) == if dx == 0 && dy == 0 then [] else ShiftOne(width, height, c, (dx, dy)) + Shifted(width, height, c, []);
  }

  /** One column of a square scan, then the remaining columns. */
  lemma SquareStep(width: Coord, height: Coord, c: Position, r: nat, dx: int, kept: seq<Position>)
    requires dx <= r
    ensures kept + Shifted(width, height, c, Square(r, dx)) ==
      (kept + Shifted(width, height, c, Column(r, dx, -(r as int)))) + Shifted(width, height, c, Square(r, dx + 1))
  {
    ShiftedAppend(width, height, c, Column(r, dx, -(r as int)), Square(r, dx + 1));
  }

  /** The square radius of a vision level: 1 for level 2 (3x3), 2 for level 3 (5x5). */
  function RadiusOf(visionRange: int): nat
  {
    if visionRange == 2 then 1 else 2
  }

  /** `buildNeighborhood` on values: the in-bounds positions of the vision pattern, in scan order. */
  function Neighborhood(center: Position, width: Coord, height: Coord, visionRange: int): (r: Result<seq<Position>, RandomError>)
    ensures r.Err? <==> visionRange < 1 || visionRange > 3
    ensures r.Err? ==> r.error == InvalidVisionRange(visionRange)
  {
    if visionRange < 1 || visionRange > 3 then Err(InvalidVisionRange(visionRange))
    else if visionRange == 1 then Ok(Shifted(width, height, center, CrossDeltas))
    else Ok(Shifted(width, height, center, Square(RadiusOf(visionRange), -(RadiusOf(visionRange) as int))))
  }

  /** The square of radius `r` around the centre, clipped to the world. */
  lemma SquareNeighborhoodMembership(center: Position, width: Coord, height: Coord, r: nat, q: Position)
    ensures q in Shifted(width, height, center, Square(r, -(r as int))) <==>
      InBounds(width, height, q.x, q.y) && q != center && Abs(q.x - center.x) <= r && Abs(q.y - center.y) <= r
  {
    var ds := Square(r, -(r as int));
    var d: Delta := (q.x - center.x, q.y - center.y);
    ShiftedMembership(width, height, center, ds, q);
    if q in Shifted(width, height, center, ds) {
      SquareOnly(r, -(r as int), d);
    }
    if InBounds(width, height, q.x, q.y) && q != center && Abs(q.x - center.x) <= r && Abs(q.y - center.y) <= r {
      SquareHas(r, -(r as int), d);
    }
  }

  /**
   * What a neighbourhood holds: the in-bounds positions other than the centre that are
   * orthogonally adjacent (level 1) or within the square of the level's radius (levels 2, 3).
   */
  lemma NeighborhoodMembership(center: Position, width: Coord, height: Coord, visionRange: int, q: Position)
    requires 1 <= visionRange <= 3
    ensures q in Neighborhood(center, width, height, visionRange).value <==>
      InBounds(width, height, q.x, q.y) && q != center &&
      (if visionRange == 1 then Distance(q, center) == 1
       else Abs(q.x - center.x) <= RadiusOf(visionRange) && Abs(q.y - center.y) <= RadiusOf(visionRange))
  {
    if visionRange == 1 {
      ShiftedMembership(width, height, center, CrossDeltas, q);
    } else {
      SquareNeighborhoodMembership(center, width, height, RadiusOf(visionRange), q);
    }
  }

  /** The positions among `ps` whose cell exists and passes the filter, in order. */
  function Candidates(g: Grid, ps: seq<Position>, f: NeighborFilter): (r: seq<Position>)
    requires WellFormed(g)
    ensures |r| <= |ps|
    decreases |ps|
  {
    if ps == [] then []
    else
      var c := CellAt(g, ps[0]);
      (if c.Some? && MatchesFilter(c.value, f) then [ps[0]] else []) + Candidates(g, ps[1..], f)
  }

  lemma {:induction false} CandidatesMembership(g: Grid, ps: seq<Position>, f: NeighborFilter, q: Position)
    requires WellFormed(g)
    ensures q in Candidates(g, ps, f) <==> q in ps && CellAt(g, q).Some? && MatchesFilter(CellAt(g, q).value, f)
    decreases |ps|
  {
    if ps != [] {
      CandidatesMembership(g, ps[1..], f, q);
      assert ps == [ps[0]] + ps[1..];
    }
  }

  /** Some position passes the filter exactly when the candidate list is not empty. */
  lemma CandidatesNonEmpty(g: Grid, ps: seq<Position>, f: NeighborFilter)
    requires WellFormed(g)
    ensures Candidates(g, ps, f) != [] <==> exists q :: q in ps && CellAt(g, q).Some? && MatchesFilter(CellAt(g, q).value, f)
  {
    var cs := Candidates(g, ps, f);
    if cs != [] {
      CandidatesMembership(g, ps, f, cs[0]);
    }
    forall q | q in ps && CellAt(g, q).Some? && MatchesFilter(CellAt(g, q).value, f)
      ensures cs != []
    {
      CandidatesMembership(g, ps, f, q);
    }
  }

  /** One step of a left-to-right scan: the candidates kept so far, then the test of `ps[k]`, then the rest. */
  lemma CandidatesStep(g: Grid, ps: seq<Position>, f: NeighborFilter, k: nat, kept: seq<Position>)
    requires WellFormed(g) && k < |ps|
    requires Candidates(g, ps, f) == kept + Candidates(g, ps[k..], f)
    ensures Candidates(g, ps, f) ==
      (kept + if CellAt(g, ps[k]).Some? && MatchesFilter(CellAt(g, ps[k]).value, f) then [ps[k]] else []) + Candidates(g, ps[k + 1..], f)
  {
    CandidatesAt(g, ps, f, k);
    var next := if CellAt(g, ps[k]).Some? && MatchesFilter(CellAt(g, ps[k]).value, f) then [ps[k]] else [];
    assert kept + (next + Candidates(g, ps[k + 1..], f)) == (kept + next) + Candidates(g, ps[k + 1..], f);
  }

  /** The scan from `ps[k]` on: the test of `ps[k]`, then the scan of the rest. */
  lemma CandidatesAt(g: Grid, ps: seq<Position>, f: NeighborFilter, k: nat)
    requires WellFormed(g) && k < |ps|
    ensures Candidates(g, ps[k..], f) ==
      (if CellAt(g, ps[k]).Some? && MatchesFilter(CellAt(g, ps[k]).value, f) then [ps[k]] else []) + Candidates(g, ps[k + 1..], f)
  {
    assert ps[k..][0] == ps[k] && ps[k..][1..] == ps[k + 1..];
  }

  /** `randomNeighbor` on values: one draw among the matching neighbours of the vision pattern. */
  function RandomNeighborOf(s: Rng, g: Grid, p: Position, visionRange: int, f: NeighborFilter): (r: (Result<Option<Position>, RandomError>, Rng))
    requires WellFormed(g)
    ensures r.0.Err? <==> visionRange < 1 || visionRange > 3
    ensures r.0.Err? ==> r.1 == s
    ensures r.0.Ok? && r.0.value.None? ==> r.1 == s
    ensures r.0.Ok? ==> (r.0.value.None? <==> Candidates(g, Neighborhood(p, g.width, g.height, visionRange).value, f) == [])
    ensures r.0.Ok? && r.0.value.Some? ==> r.0.value.value in Candidates(g, Neighborhood(p, g.width, g.height, visionRange).value, f)
  {
    match Neighborhood(p, g.width, g.height, visionRange)
    case Err(e) => (Err(e), s)
    case Ok(ns) =>
      var (c, s') := ChooseFrom(s, Some(Candidates(g, ns, f)));
      (Ok(c), s')
  }

  /** A drawn neighbour is a matching cell of the pattern, never the centre, never outside the world. */
  lemma RandomNeighborIsMatchingNeighbor(s: Rng, g: Grid, p: Position, visionRange: int, f: NeighborFilter)
    requires WellFormed(g) && 1 <= visionRange <= 3
    requires RandomNeighborOf(s, g, p, visionRange, f).0.Ok? && RandomNeighborOf(s, g, p, visionRange, f).0.value.Some?
    ensures var q := RandomNeighborOf(s, g, p, visionRange, f).0.value.value;
      q != p && InBounds(g.width, g.height, q.x, q.y) && MatchesFilter(CellAt(g, q).value, f) &&
      q in Neighborhood(p, g.width, g.height, visionRange).value
  {
    var q := RandomNeighborOf(s, g, p, visionRange, f).0.value.value;
    var ns := Neighborhood(p, g.width, g.height, visionRange).value;
    CandidatesMembership(g, ns, f, q);
    NeighborhoodMembership(p, g.width, g.height, visionRange, q);
  }

  /** The generator object: the process-wide `java.util.Random` of the source, owned here by its user. */
  class RandomGenerator {
    var rng: Rng

    constructor ()
      ensures rng == Seeded(DefaultSeed)
    {
      rng := Seeded(DefaultSeed);
    }

    /** `reseed`: afterwards the generator behaves exactly as a fresh one with that seed. */
    method Reseed(seed: int)
      modifies this
      ensures rng == Seeded(seed)
    {
      rng := Seeded(seed);
    }

    /** `nextInt`: a non-positive bound is refused before any draw. */
    method NextInt(bound: Int32) returns (r: Result<int, RandomError>)
      modifies this
      ensures bound <= 0 ==> r == Err(NonPositiveBound(bound)) && rng == old(rng)
      ensures bound > 0 ==> r == Ok(DrawInt(old(rng), bound).0) && rng == DrawInt(old(rng), bound).1
      ensures r.Ok? ==> 0 <= r.value < bound
    {
      if bound <= 0 {
        return Err(NonPositiveBound(bound));
      }
      var v;
      v, rng := DrawInt(rng, bound).0, DrawInt(rng, bound).1;
      r := Ok(v);
    }

    /** `choose(List)`. */
    method Choose<T>(list: Option<seq<T>>) returns (r: Option<T>)
      modifies this
      ensures (r, rng) == ChooseFrom(old(rng), list)
    {
      r, rng := ChooseFrom(rng, list).0, ChooseFrom(rng, list).1;
    }

    /** `choose(T[])`. */
    method ChooseArray<T>(a: array?<T>) returns (r: Option<T>)
      modifies this
      ensures (r, rng) == ChooseFrom(old(rng), if a == null then None else Some(a[..]))
    {
      if a == null || a.Length == 0 {
        return None;
      }
      var j;
      j, rng := DrawInt(rng, a.Length).0, DrawInt(rng, a.Length).1;
      r := Some(a[j]);
    }

    /** The swap step of `shuffleArray`. */
    static method SwapElements<T>(a: array<T>, i: nat, j: nat)
      requires i < a.Length && j < a.Length
      modifies a
      ensures a[..] == Swap(old(a[..]), i, j)
    {
      a[i], a[j] := a[j], a[i];
    }

    /** `shuffleArray`: the downward Fisher-Yates loop, in place; a missing array draws nothing. */
    method ShuffleArray<T>(a: array?<T>)
      modifies this, a
      ensures a == null ==> rng == old(rng)
      ensures a != null ==> (a[..], rng) == Shuffled(old(a[..]), old(rng))
    {
      if a == null {
        return;
      }
      var i := a.Length - 1;
      while i > 0
        invariant -1 <= i < a.Length
        invariant a.Length == 0 ==> i == -1
        invariant ShuffleFrom(a[..], i, rng) == Shuffled(old(a[..]), old(rng))
        decreases i
      {
        ghost var xs := a[..];
        ShuffleFromStep(xs, i, rng);
        var j;
        j, rng := DrawInt(rng, i + 1).0, DrawInt(rng, i + 1).1;
        SwapElements(a, i, j);
        assert a[..] == Swap(xs, i, j);
        i := i - 1;
      }
    }

    /** `shuffleList`: `Collections.shuffle` runs the same downward swap loop on the list's elements. */
    method ShuffleList<T>(list: Option<seq<T>>) returns (r: Option<seq<T>>)
      modifies this
      ensures list.None? ==> r.None? && rng == old(rng)
      ensures list.Some? ==> r == Some(Shuffled(list.value, old(rng)).0) && rng == Shuffled(list.value, old(rng)).1
      ensures list.Some? ==> multiset(r.value) == multiset(list.value)
    {
      if list.None? {
        return None;
      }
      ghost var s0 := rng;
      var xs := list.value;
      var i := |xs| - 1;
      while i > 0
        invariant -1 <= i < |xs|
        invariant xs == [] ==> i == -1
        invariant ShuffleFrom(xs, i, rng) == Shuffled(list.value, old(rng))
        decreases i
      {
        ShuffleFromStep(xs, i, rng);
        var j;
        j, rng := DrawInt(rng, i + 1).0, DrawInt(rng, i + 1).1;
        xs := Swap(xs, i, j);
        i := i - 1;
      }
      ShuffledPermutes(list.value, s0);
      r := Some(xs);
    }

    /** `addValidPosition`: append the offset position when it lies inside the world. */
    static method AddValidPosition(center: Position, world: World, neighbors: seq<Position>, dx: int, dy: int) returns (r: seq<Position>)
      ensures r == neighbors + ShiftOne(world.width, world.height, center, (dx, dy))
    {
      var nx := center.x + dx;
      var ny := center.y + dy;
      r := neighbors;
      if nx >= 0 && ny >= 0 && nx < world.width && ny < world.height {
        r := r + [Position(nx, ny)];
      }
    }

    /** The level-1 branch of `buildNeighborhood`: one bounds test per offset, in order. */
    static method AddOffsets(center: Position, world: World, deltas: seq<Delta>) returns (neighbors: seq<Position>)
      ensures neighbors == Shifted(world.width, world.height, center, deltas)
    {
      var w, h := world.width, world.height;
      neighbors := [];
      var k := 0;
      while k < |deltas|
        invariant 0 <= k <= |deltas|
        invariant Shifted(w, h, center, deltas) == neighbors + Shifted(w, h, center, deltas[k..])
      {
        ShiftedStep(w, h, center, deltas, k, neighbors);
        neighbors := AddValidPosition(center, world, neighbors, deltas[k].0, deltas[k].1);
        k := k + 1;
      }
      assert deltas[k..] == [];
    }

    /** The inner loop of the square scan: column `dx`, rows `-radius` to `radius`, skipping the centre. */
    static method AddColumn(center: Position, world: World, radius: nat, dx: int, neighbors: seq<Position>) returns (r: seq<Position>)
      ensures r == neighbors + Shifted(world.width, world.height, center, Column(radius, dx, -(radius as int)))
    {
      var w, h := world.width, world.height;
      ghost var full := neighbors + Shifted(w, h, center, Column(radius, dx, -(radius as int)));
      r := neighbors;
      var dy := -(radius as int);
      while dy <= radius
        invariant -(radius as int) <= dy <= radius + 1
        invariant full == r + Shifted(w, h, center, Column(radius, dx, dy))
        decreases radius + 1 - dy
      {
        ColumnStep(w, h, center, radius, dx, dy);
        ghost var rest := Shifted(w, h, center, Column(radius, dx, dy + 1));
        if !(dx == 0 && dy == 0) {
          ghost var one := ShiftOne(w, h, center, (dx, dy));
          assert full == (r + one) + rest;
          r := AddValidPosition(center, world, r, dx, dy);
        }
        dy := dy + 1;
      }
    }

    /** The square branch of `buildNeighborhood`: columns `-radius` to `radius`, each scanned top to bottom. */
    static method AddSquare(center: Position, world: World, radius: nat) returns (neighbors: seq<Position>)
      ensures neighbors == Shifted(world.width, world.height, center, Square(radius, -(radius as int)))
    {
      var w, h := world.width, world.height;
      ghost var full := Shifted(w, h, center, Square(radius, -(radius as int)));
      neighbors := [];
      var dx := -(radius as int);
      while dx <= radius
        invariant -(radius as int) <= dx <= radius + 1
        invariant full == neighbors + Shifted(w, h, center, Square(radius, dx))
        decreases radius + 1 - dx
      {
        SquareStep(w, h, center, radius, dx, neighbors);
        neighbors := AddColumn(center, world, radius, dx, neighbors);
        dx := dx + 1;
      }
    }

    /** `buildNeighborhood`: the cross for level 1, the 3x3 or 5x5 square scanned column by column otherwise. */
    static method BuildNeighborhood(position: Position, world: World, visionRange: int) returns (r: Result<seq<Position>, RandomError>)
      ensures r == Neighborhood(position, world.width, world.height, visionRange)
    {
      if visionRange < 1 || visionRange > 3 {
        return Err(InvalidVisionRange(visionRange));
      }
      var neighbors;
      if visionRange == 1 {
        neighbors := AddOffsets(position, world, CrossDeltas);
      } else {
        var radius := if visionRange == 2 then 1 else 2;
        neighbors := AddSquare(position, world, radius);
      }
      r := Ok(neighbors);
    }

    /** One test of the filtering loop: the cell at `q` exists and passes the filter. */
    static predicate CellMatches(world: World, q: Position, filter: NeighborFilter)
      requires world.Valid()
      reads world.Cells(), world.Occupants()
      ensures CellMatches(world, q, filter) <==> CellAt(world.State(), q).Some? && MatchesFilter(CellAt(world.State(), q).value, filter)
    {
      var cell := world.GetCell(q);
      if cell == null then false
      else
        world.CellFacts(Index(world.width, q));
        MatchesFilter(cell.State(), filter)
    }

    /** The filtering loop of `randomNeighbor`: keep the candidates whose cell exists and matches. */
    static method FilterCandidates(world: World, candidates: seq<Position>, filter: NeighborFilter) returns (filtered: seq<Position>)
      requires world.Valid()
      ensures filtered == Candidates(world.State(), candidates, filter)
    {
      ghost var g := world.State();
      filtered := [];
      var k := 0;
      while k < |candidates|
        invariant 0 <= k <= |candidates|
        invariant world.State() == g
        invariant Candidates(g, candidates, filter) == filtered + Candidates(g, candidates[k..], filter)
      {
        assert world.Valid();
        CandidatesStep(g, candidates, filter, k, filtered);
        filtered := filtered + if CellMatches(world, candidates[k], filter) then [candidates[k]] else [];
        k := k + 1;
      }
      assert candidates[k..] == [];
    }

    /** `randomNeighbor(position, world, visionRange, filter)`. */
    method RandomNeighbor(position: Position, world: World, visionRange: int, filter: NeighborFilter) returns (r: Result<Option<Position>, RandomError>)
      requires world.Valid()
      modifies this
      ensures (r, rng) == RandomNeighborOf(old(rng), world.State(), position, visionRange, filter)
    {
      ghost var g := world.State();
      var candidates := BuildNeighborhood(position, world, visionRange);
      assert world.State() == g;
      if candidates.Err? {
        return Err(candidates.error);
      }
      var filtered := FilterCandidates(world, candidates.value, filter);
      assert world.State() == g;
      assert filtered == Candidates(g, Neighborhood(position, g.width, g.height, visionRange).value, filter);
      var c := Choose(Some(filtered));
      assert world.State() == g;
      r := Ok(c);
    }

    /** `randomNeighbor(position, world)`: the cross, completely empty cells; level 1 never fails. */
    method RandomEmptyNeighbor(position: Position, world: World) returns (r: Option<Position>)
      requires world.Valid()
      modifies this
      ensures (Ok(r), rng) == RandomNeighborOf(old(rng), world.State(), position, 1, Empty)
    {
      var res := RandomNeighbor(position, world, 1, Empty);
      r := res.value;
    }

    /** `randomNeighbor(position, world, filter)`: the cross with the given filter; level 1 never fails. */
    method RandomNeighborMatching(position: Position, world: World, filter: NeighborFilter) returns (r: Option<Position>)
      requires world.Valid()
      modifies this
      ensures (Ok(r), rng) == RandomNeighborOf(old(rng), world.State(), position, 1, filter)
    {
      var res := RandomNeighbor(position, world, 1, filter);
      r := res.value;
    }

    /** `randomNeighbor(position, world, visionRange)`: completely empty cells of the given pattern. */
    method RandomNeighborInRange(position: Position, world: World, visionRange: int) returns (r: Result<Option<Position>, RandomError>)
      requires world.Valid()
      modifies this
      ensures (r, rng) == RandomNeighborOf(old(rng), world.State(), position, visionRange, Empty)
    {
      r := RandomNeighbor(position, world, visionRange, Empty);
    }
  }
}
