/**
 * `SimulationController`: the turn counter, the phase cursor (`None` when no
 * turn is in progress) and the five phases of a turn, run in the fixed order
 * PLANT_GROWTH, HERBIVORES, CARNIVORES, REPRODUCTION, CLEANUP. The
 * controller owns the random generator its phases draw from.
 */
module Controller {
  import opened Wrappers
  import opened Positions
  import opened Organisms
  import opened Cells
  import opened Grids
  import opened Worlds
  import opened Randomness
  import Phases
  import Turns

  /** `DEFAULT_TICK_MS`. */
  const DefaultTickMs: Int32 := 600
  /** The smallest tick interval `setTickIntervalMs` accepts. */
  const MinTickMs: Int32 := 50

  /** The `Phase` enum, in declaration order. */
  datatype Phase = PlantGrowth | Herbivores | Carnivores | Reproduction | Cleanup

  /** `Phase.values()`. */
  const AllPhases: seq<Phase> := [PlantGrowth, Herbivores, Carnivores, Reproduction, Cleanup]

  /** `ordinal`: the position of a phase in `values()`. */
  function Ordinal(p: Phase): (r: nat)
    ensures r < |AllPhases| && AllPhases[r] == p
  {
    match p
    case PlantGrowth => 0
    case Herbivores => 1
    case Carnivores => 2
    case Reproduction => 3
    case Cleanup => 4
  }

  /** `next`: the phase after `p` in `values()`, `None` after the last one. */
  function Next(p: Phase): Option<Phase>
  {
    if Ordinal(p) < |AllPhases| - 1 then Some(AllPhases[Ordinal(p) + 1]) else None
  }

  /** `next` walks PLANT_GROWTH, HERBIVORES, CARNIVORES, REPRODUCTION, CLEANUP, then `null`. */
  lemma NextCycle()
    ensures Next(PlantGrowth) == Some(Herbivores)
    ensures Next(Herbivores) == Some(Carnivores)
    ensures Next(Carnivores) == Some(Reproduction)
    ensures Next(Reproduction) == Some(Cleanup)
    ensures Next(Cleanup) == None
  {
  }

  /** How many phases are left to run with the cursor at `p`. */
  function Rank(p: Option<Phase>): nat
  {
    if p.None? then 0 else |AllPhases| - Ordinal(p.value)
  }

  /** Moving the cursor on brings the end of the turn closer. */
  lemma NextLowersRank(p: Phase)
    ensures Rank(Next(p)) < Rank(Some(p))
  {
  }

  /**
   * The phases a turn still runs with the cursor at `p`, as the loop
   * of `stepRemainingPhases` visits them: `p`, then `next` until `null`.
   */
  function Remaining(p: Option<Phase>): (r: seq<Phase>)
    ensures p.None? ==> r == []
    ensures p.Some? ==> r == AllPhases[Ordinal(p.value)..]
    decreases Rank(p)
  {
    if p.None? then []
    else
      var rest := Remaining(Next(p.value));
      [p.value] + rest
  }

  /** A turn started from idle runs all five phases, each once, in declaration order. */
  lemma FullTurnPhases()
    ensures Remaining(Some(PlantGrowth)) == [PlantGrowth, Herbivores, Carnivores, Reproduction, Cleanup]
  {
  }

  /** One phase on values. */
  function RunPhase(ph: Phase, s: Rng, g: Grid): (r: (Grid, Rng))
    requires ValidGrid(g)
    ensures ValidGrid(r.0) && r.0.width == g.width && r.0.height == g.height
  {
    match ph
    case PlantGrowth =>
      Phases.GrowthSpec(g);
      (Phases.Grown(g), s)
    case Herbivores =>
      Phases.AnimalPhaseFromKeepsValid(s, g, g, 0, Herbivore);
      Phases.AnimalPhase(s, g, Herbivore)
    case Carnivores =>
      Phases.AnimalPhaseFromKeepsValid(s, g, g, 0, Carnivore);
      Phases.AnimalPhase(s, g, Carnivore)
    case Reproduction => Phases.Reproduction(s, g)
    case Cleanup =>
      Phases.CleanupSpec(g);
      (Phases.Cleaned(g), s)
  }

  /** Phases run one after the other, each on the world the previous one left. */
  function RunPhases(phs: seq<Phase>, s: Rng, g: Grid): (r: (Grid, Rng))
    requires ValidGrid(g)
    ensures ValidGrid(r.0) && r.0.width == g.width && r.0.height == g.height
    decreases |phs|
  {
    if phs == [] then (g, s)
    else
      var (g', s') := RunPhase(phs[0], s, g);
      RunPhases(phs[1..], s', g')
  }

  /** A full turn on values. */
  function FullTurn(s: Rng, g: Grid): (r: (Grid, Rng))
    requires ValidGrid(g)
    ensures ValidGrid(r.0) && r.0.width == g.width && r.0.height == g.height
  {
    RunPhases(AllPhases, s, g)
  }

  /** The remaining phases from `p` are `p` itself, then the remaining phases from `next(p)`. */
  lemma RemainingStep(p: Phase, s: Rng, g: Grid)
    requires ValidGrid(g)
    ensures RunPhases(Remaining(Some(p)), s, g) == RunPhases(Remaining(Next(p)), RunPhase(p, s, g).1, RunPhase(p, s, g).0)
  {
    assert Remaining(Some(p))[0] == p && Remaining(Some(p))[1..] == Remaining(Next(p));
  }

  /** Stepping phase by phase from idle, through any intermediate worlds, does what one full `step` does. */
  lemma PhaseByPhaseIsFullTurn(s0: Rng, g0: Grid, s1: Rng, g1: Grid, s2: Rng, g2: Grid, s3: Rng, g3: Grid, s4: Rng, g4: Grid, s5: Rng, g5: Grid)
    requires ValidGrid(g0) && ValidGrid(g1) && ValidGrid(g2) && ValidGrid(g3) && ValidGrid(g4)
    requires (g1, s1) == (Phases.Grown(g0), s0)
    requires (g2, s2) == Phases.AnimalPhase(s1, g1, Herbivore)
    requires (g3, s3) == Phases.AnimalPhase(s2, g2, Carnivore)
    requires (g4, s4) == Phases.Reproduction(s3, g3)
    requires (g5, s5) == (Phases.Cleaned(g4), s4)
    ensures (g5, s5) == FullTurn(s0, g0)
  {
    var phs := AllPhases;
    assert phs[1..][1..][1..][1..][1..] == [];
    assert RunPhases(phs[1..][1..][1..][1..], s4, g4) == (g5, s5);
    assert RunPhases(phs[1..][1..][1..], s3, g3) == (g5, s5);
    assert RunPhases(phs[1..][1..], s2, g2) == (g5, s5);
    assert RunPhases(phs[1..], s1, g1) == (g5, s5);
  }

  /** After any turn finished by cleanup, every organism left in the world is alive. */
  lemma TurnEndsWithLiving(s: Rng, g: Grid, p: Option<Phase>)
    requires ValidGrid(g) && p.Some?
    ensures var r := RunPhases(Remaining(p), s, g).0;
      forall i :: 0 <= i < |r.cells| ==>
        (r.cells[i].animal.Some? ==> r.cells[i].animal.value.alive) &&
        (r.cells[i].plant.Some? ==> r.cells[i].plant.value.alive)
    decreases Rank(p)
  {
    var (g', s') := RunPhase(p.value, s, g);
    if p.value == Cleanup {
      Phases.CleanupSpec(g);
      assert Remaining(p) == [Cleanup];
      assert RunPhases(Remaining(p), s, g) == RunPhases([], s', g');
    } else {
      assert Remaining(p)[1..] == Remaining(Next(p.value));
      TurnEndsWithLiving(s', g', Next(p.value));
    }
  }

  /** A full turn of an empty world leaves it empty and draws nothing. */
  lemma EmptyWorldStaysEmpty(s: Rng, g: Grid)
    requires ValidGrid(g) && IsEmptyGrid(g)
    ensures FullTurn(s, g) == (g, s)
  {
    assert Phases.Grown(g) == g;
    Phases.AnimalPhaseFromIdle(s, g, g, 0, Herbivore);
    Phases.AnimalPhaseFromIdle(s, g, g, 0, Carnivore);
    Phases.ReproductionFromIdle(s, g, 0);
    Phases.CleanupOfEmptyWorld(g);
    PhaseByPhaseIsFullTurn(s, g, s, g, s, g, s, g, s, g, s, g);
  }

  /** `setTickIntervalMs`: requests below 50 ms are raised to 50 ms, others are kept. */
  function ClampTick(ms: Int32): (r: Int32)
    ensures r >= MinTickMs
    ensures ms >= MinTickMs ==> r == ms
    ensures ms < MinTickMs ==> r == MinTickMs
  {
    Max(MinTickMs, ms)
  }

  class SimulationController {
    var world: World?
    var turn: Int32
    /** `currentPhase`, `None` for Java's `null`: no turn in progress. */
    var currentPhase: Option<Phase>
    var tickIntervalMs: Int32
    /** The generator the phases draw from. */
    const random: RandomGenerator

    /** What the phases may change in the world. */
    ghost function Footprint(): set<object?>
      reads this, (if world != null then world.Cells() else {})
    {
      if world != null then world.Repr() else {}
    }

    /** The world, if any, is valid and holds neither the controller nor its generator. */
    ghost predicate Valid()
      reads this, Footprint()
    {
      world != null ==> this !in world.Repr() && random !in world.Repr() && world.Valid()
    }

    /** `SimulationController()`: no world, turn 0, idle, the default tick. */
    constructor ()
      ensures world == null && turn == 0 && currentPhase == None && tickIntervalMs == DefaultTickMs
      ensures Valid()
    {
      world := null;
      turn := 0;
      currentPhase := None;
      tickIntervalMs := DefaultTickMs;
      random := new RandomGenerator();
    }

    /** `SimulationController(world)`: as `setWorld(world)` on a fresh controller. */
    constructor WithWorld(w: World?)
      requires w != null ==> w.Valid()
      ensures world == w && turn == 0 && currentPhase == None && tickIntervalMs == DefaultTickMs
      ensures Valid()
    {
      world := w;
      turn := 0;
      currentPhase := None;
      tickIntervalMs := DefaultTickMs;
      random := new RandomGenerator();
      new;
      assert w != null ==> this !in w.Repr() && random !in w.Repr();
    }

    /** `setWorld`: the new world, turn 0, no phase in progress. */
    method SetWorld(w: World?)
      requires w != null ==> w.Valid()
      modifies this
      ensures world == w && turn == 0 && currentPhase == None && tickIntervalMs == old(tickIntervalMs)
      ensures Valid()
    {
      if w != null {
        assert this !in w.Repr() && random !in w.Repr();
      }
      world := w;
      turn := 0;
      currentPhase := None;
    }

    /** `setTickIntervalMs`: stores the clamped interval. */
    method SetTickIntervalMs(ms: Int32)
      modifies this
      ensures tickIntervalMs == ClampTick(ms)
      ensures world == old(world) && turn == old(turn) && currentPhase == old(currentPhase)
    {
      tickIntervalMs := ClampTick(ms);
    }

    /**
     * `reset` without a configuration file: an empty world of the same
     * dimensions replaces the current one (if any); turn 0, idle.
     */
    method Reset()
      modifies this
      ensures turn == 0 && currentPhase == None && tickIntervalMs == old(tickIntervalMs)
      ensures old(world) == null ==> world == null
      ensures old(world) != null ==>
        world != null && fresh(world) && world.width == old(world.width) && world.height == old(world.height) &&
        world.Valid() && IsEmptyGrid(world.State())
    {
      if world != null {
        var w := new World(world.width, world.height);
        ghost var empty := w.State();
        assert this !in w.Repr() && random !in w.Repr();
        SetWorld(w);
        assert w.State() == empty && w.Valid() && IsEmptyGrid(empty);
      }
      turn := 0;
      currentPhase := None;
    }

    /** `allCells`: every cell of the world, row by row; nothing without a world. */
    method AllCells() returns (cells: seq<Cell>)
      requires Valid()
      ensures world == null ==> cells == []
      ensures world != null ==> cells == world.grid
    {
      cells := [];
      if world == null {
        return;
      }
      var y := 0;
      while y < world.height
        invariant 0 <= y <= world.height
        invariant RowStart(y, world.width) <= |world.grid|
        invariant cells == world.grid[..RowStart(y, world.width)]
      {
        var x := 0;
        RowStartMonotone(y + 1, world.height, world.width);
        while x < world.width
          invariant 0 <= x <= world.width
          invariant cells == world.grid[..RowStart(y, world.width) + x]
        {
          var c: Cell := world.GetCell(Position(x, y));
          cells := cells + [c];
          x := x + 1;
        }
        y := y + 1;
      }
      assert world.grid[..|world.grid|] == world.grid;
    }

    /** `phasePlantGrowth`: every plant grows. */
    method PhasePlantGrowth()
      requires Valid()
      modifies Footprint()
      ensures Valid() && unchanged(this)
      ensures world != null ==> world.State() == Phases.Grown(old(world.State()))
      ensures random.rng == old(random.rng)
      ensures forall o :: o in Footprint() && o != null ==> o in old(Footprint()) || fresh(o)
    {
      if world != null {
        Turns.PlantGrowthPhase(world);
        world.ReprHoldsCellsAndOrganisms();
      }
    }

    /** `phaseHerbivores`: every herbivore takes its turn. */
    method PhaseHerbivores()
      requires Valid()
      modifies Footprint(), random
      ensures Valid() && unchanged(this)
      ensures world != null ==> (world.State(), random.rng) == Phases.AnimalPhase(old(random.rng), old(world.State()), Herbivore)
      ensures world == null ==> random.rng == old(random.rng)
      ensures forall o :: o in Footprint() && o != null ==> o in old(Footprint()) || fresh(o)
    {
      if world != null {
        Turns.AnimalPhaseRun(world, random, Herbivore);
        world.ReprHoldsCellsAndOrganisms();
      }
    }

    /** `phaseCarnivores`: every carnivore takes its turn. */
    method PhaseCarnivores()
      requires Valid()
      modifies Footprint(), random
      ensures Valid() && unchanged(this)
      ensures world != null ==> (world.State(), random.rng) == Phases.AnimalPhase(old(random.rng), old(world.State()), Carnivore)
      ensures world == null ==> random.rng == old(random.rng)
      ensures forall o :: o in Footprint() && o != null ==> o in old(Footprint()) || fresh(o)
    {
      if world != null {
        Turns.AnimalPhaseRun(world, random, Carnivore);
        world.ReprHoldsCellsAndOrganisms();
      }
    }

    /** `phaseReproduction`: every animal, then every plant of each cell, tries to spawn. */
    method PhaseReproduction()
      requires Valid()
      modifies Footprint(), random
      ensures Valid() && unchanged(this)
      ensures world != null ==> (world.State(), random.rng) == Phases.Reproduction(old(random.rng), old(world.State()))
      ensures world == null ==> random.rng == old(random.rng)
      ensures forall o :: o in Footprint() && o != null ==> o in old(Footprint()) || fresh(o)
    {
      if world != null {
        Turns.ReproductionPhaseRun(world, random);
        world.ReprHoldsCellsAndOrganisms();
      }
    }

    /** `phaseCleanup`: the dead leave their cells. */
    method PhaseCleanup()
      requires Valid()
      modifies Footprint()
      ensures Valid() && unchanged(this)
      ensures world != null ==> world.State() == Phases.Cleaned(old(world.State()))
      ensures random.rng == old(random.rng)
      ensures forall o :: o in Footprint() && o != null ==> o in old(Footprint()) || fresh(o)
    {
      if world != null {
        Turns.CleanupPhaseRun(world);
        world.ReprHoldsCellsAndOrganisms();
      }
    }

    /** `executeCurrentPhase`: runs the phase the cursor names, and nothing when idle; the cursor stays. */
    method ExecuteCurrentPhase()
      requires Valid()
      modifies Footprint(), random
      ensures Valid() && unchanged(this)
      ensures world != null && currentPhase.Some? ==>
        (world.State(), random.rng) == RunPhase(currentPhase.value, old(random.rng), old(world.State()))
      ensures world != null && currentPhase.None? ==> world.State() == old(world.State())
      ensures world == null || currentPhase.None? ==> random.rng == old(random.rng)
      ensures forall o :: o in Footprint() && o != null ==> o in old(Footprint()) || fresh(o)
    {
      match currentPhase
      case None =>
      case Some(PlantGrowth) => PhasePlantGrowth();
      case Some(Herbivores) => PhaseHerbivores();
      case Some(Carnivores) => PhaseCarnivores();
      case Some(Reproduction) => PhaseReproduction();
      case Some(Cleanup) => PhaseCleanup();
    }

    /** `stepRemainingPhases`: runs the phase under the cursor and every later one, leaving the controller idle. */
    method StepRemainingPhases()
      requires Valid()
      modifies this, Footprint(), random
      ensures Valid() && world == old(world) && turn == old(turn) && tickIntervalMs == old(tickIntervalMs)
      ensures currentPhase == (if old(world) == null then old(currentPhase) else None)
      ensures world != null ==> (world.State(), random.rng) == RunPhases(Remaining(old(currentPhase)), old(random.rng), old(world.State()))
      ensures world == null ==> random.rng == old(random.rng)
      ensures forall o :: o in Footprint() && o != null ==> o in old(Footprint()) || fresh(o)
    {
      if world == null || currentPhase.None? {
        return;
      }
      RunRemainingPhases();
    }

    /** The loop of `stepRemainingPhases`: while the cursor names a phase, that phase runs and the cursor moves on. */
    method RunRemainingPhases()
      requires Valid() && world != null && currentPhase.Some?
      modifies this, Footprint(), random
      ensures Valid() && world == old(world) && turn == old(turn) && tickIntervalMs == old(tickIntervalMs) && currentPhase == None
      ensures (world.State(), random.rng) == RunPhases(Remaining(old(currentPhase)), old(random.rng), old(world.State()))
      ensures forall o :: o in world.Repr() && o != null ==> o in old(world.Repr()) || fresh(o)
    {
      ghost var w0, t0, ms0, r0 := world, turn, tickIntervalMs, world.Repr();
      ghost var goal := RunPhases(Remaining(currentPhase), random.rng, world.State());
      while currentPhase.Some?
        invariant Valid() && world == w0 && turn == t0 && tickIntervalMs == ms0
        invariant RunPhases(Remaining(currentPhase), random.rng, world.State()) == goal
        invariant forall o :: o in world.Repr() && o != null ==> o in r0 || fresh(o)
        decreases Rank(currentPhase)
      {
        ghost var p, g, r := currentPhase.value, world.State(), random.rng;
        AdvancePhase();
        RemainingStep(p, r, g);
        NextLowersRank(p);
      }
    }

    /** One pass of the `stepRemainingPhases` loop: the phase under the cursor runs, then the cursor moves on. */
    method AdvancePhase()
      requires Valid() && world != null && currentPhase.Some?
      modifies this, Footprint(), random
      ensures Valid() && world == old(world) && turn == old(turn) && tickIntervalMs == old(tickIntervalMs)
      ensures currentPhase == Next(old(currentPhase).value)
      ensures (world.State(), random.rng) == RunPhase(old(currentPhase).value, old(random.rng), old(world.State()))
      ensures forall o :: o in world.Repr() && o != null ==> o in old(world.Repr()) || fresh(o)
    {
      ExecuteCurrentPhase();
      ghost var g1, s1 := world.State(), random.rng;
      currentPhase := Next(currentPhase.value);
      assert Valid() && world.State() == g1 && random.rng == s1;
    }

    /**
     * `step`: without a world, nothing; in the middle of a turn, the rest of
     * it; otherwise a new turn, counted first, running all five phases.
     */
    method Step()
      requires Valid()
      modifies this, Footprint(), random
      ensures Valid() && world == old(world) && tickIntervalMs == old(tickIntervalMs)
      ensures old(world) == null ==> turn == old(turn) && currentPhase == old(currentPhase) && random.rng == old(random.rng)
      ensures old(world) != null ==> currentPhase == None
      ensures old(world) != null && old(currentPhase).None? ==>
        turn == WrapInt32(old(turn) + 1) && (world.State(), random.rng) == FullTurn(old(random.rng), old(world.State()))
      ensures old(world) != null && old(currentPhase).Some? ==>
        turn == old(turn) && (world.State(), random.rng) == RunPhases(Remaining(old(currentPhase)), old(random.rng), old(world.State()))
    {
      if world == null {
        return;
      }
      if currentPhase.Some? {
        StepRemainingPhases();
      } else {
        NewTurn();
      }
    }

    /** The new-turn path of `step`: the turn is counted, the cursor set to the first phase, all five run, the cursor cleared. */
    method NewTurn()
      requires Valid() && world != null && currentPhase.None?
      modifies this, Footprint(), random
      ensures Valid() && world == old(world) && tickIntervalMs == old(tickIntervalMs) && currentPhase == None
      ensures turn == WrapInt32(old(turn) + 1) && (world.State(), random.rng) == FullTurn(old(random.rng), old(world.State()))
    {
      ghost var g0, s0 := world.State(), random.rng;
      turn := WrapInt32(turn + 1);
      currentPhase := Some(PlantGrowth);
      assert Valid() && world.State() == g0;
      RunAllPhases();
      ghost var g1, s1 := world.State(), random.rng;
      currentPhase := None;
      assert Valid() && world.State() == g1 && random.rng == s1;
    }

    /** The body of a new turn in `step`: the five phases, one call each, in order. */
    method RunAllPhases()
      requires Valid() && world != null
      modifies Footprint(), random
      ensures Valid() && unchanged(this)
      ensures (world.State(), random.rng) == FullTurn(old(random.rng), old(world.State()))
    {
      ghost var g0, s0 := world.State(), random.rng;
      PhasePlantGrowth();
      ghost var g1, s1 := world.State(), random.rng;
      PhaseHerbivores();
      ghost var g2, s2 := world.State(), random.rng;
      PhaseCarnivores();
      ghost var g3, s3 := world.State(), random.rng;
      PhaseReproduction();
      ghost var g4, s4 := world.State(), random.rng;
      PhaseCleanup();
      PhaseByPhaseIsFullTurn(s0, g0, s1, g1, s2, g2, s3, g3, s4, g4, random.rng, world.State());
    }

    /**
     * `stepNextPhase`: without a world, nothing; from idle a new turn is
     * counted and starts at PLANT_GROWTH; the phase under the cursor runs and
     * the cursor moves on by `next`.
     */
    method StepNextPhase()
      requires Valid()
      modifies this, Footprint(), random
      ensures Valid() && world == old(world) && tickIntervalMs == old(tickIntervalMs)
      ensures old(world) == null ==> turn == old(turn) && currentPhase == old(currentPhase) && random.rng == old(random.rng)
      ensures old(world) != null ==>
        var p := if old(currentPhase).None? then PlantGrowth else old(currentPhase).value;
        turn == (if old(currentPhase).None? then WrapInt32(old(turn) + 1) else old(turn)) &&
        currentPhase == Next(p) &&
        (world.State(), random.rng) == RunPhase(p, old(random.rng), old(world.State()))
    {
      if world == null {
        return;
      }
      if currentPhase.None? {
        ghost var g0, s0 := world.State(), random.rng;
        turn := WrapInt32(turn + 1);
        currentPhase := Some(PlantGrowth);
        assert Valid() && world.State() == g0 && random.rng == s0;
      }
      AdvancePhase();
    }

    /**
     * `executePhase`: without a world or a phase, nothing; from idle a new
     * turn is counted; the cursor is set to `phase`, which runs alone, and
     * the cursor stays there.
     */
    method ExecutePhase(phase: Option<Phase>)
      requires Valid()
      modifies this, Footprint(), random
      ensures Valid() && world == old(world) && tickIntervalMs == old(tickIntervalMs)
      ensures old(world) == null || phase.None? ==>
        turn == old(turn) && currentPhase == old(currentPhase) && random.rng == old(random.rng) &&
        (world != null ==> world.State() == old(world.State()))
      ensures old(world) != null && phase.Some? ==>
        turn == (if old(currentPhase).None? then WrapInt32(old(turn) + 1) else old(turn)) &&
        currentPhase == phase &&
        (world.State(), random.rng) == RunPhase(phase.value, old(random.rng), old(world.State()))
    {
      if world == null || phase.None? {
        return;
      }
      ghost var g0, s0 := world.State(), random.rng;
      if currentPhase.None? {
        turn := WrapInt32(turn + 1);
      }
      currentPhase := phase;
      assert Valid() && world.State() == g0 && random.rng == s0;
      ExecuteCurrentPhase();
    }
  }
}
