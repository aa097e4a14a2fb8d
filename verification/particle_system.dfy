/**
 The particle system's state and its commands: the initial "dam break"
 seeding (`initSPHSystem`), the keyboard commands ' ', 'r', 'm', 'p'
 (`keyPress`), start-up, and one simulation step (`updateParticles`).

 Random values come from an input sequence of draws. Each seeded particle
 takes one draw as its horizontal jitter, so a particle seeded at grid
 point (x, y) sits at (x + draw, y).
 */
module ParticleSystem {
  import opened Constants
  import opened MazeGen
  import opened SpatialHash
  import opened DensityPass
  import opened Collision

  // ---------------------------------------------------------------------
  // The seeding grid.

  /** First row height and the exclusive upper bound of the rows. */
  const FirstRowY: real := MarginTop + 4.0 * Eps
  const RowLimit: real := ViewHeight - Eps

  /** First column and the inclusive right bound of the columns. */
  const FirstColumnX: real := ViewWidth / 3.0
  const ColumnLimit: real := 2.0 * ViewWidth / 3.0

  /** Vertical pitch of an added batch: 0.95 of the kernel radius. */
  const BatchStep: real := Eps * 0.95

  /** Row heights y, y + step, ... while below RowLimit. */
  function Rows(y: real, step: real): (ys: seq<real>)
    requires step >= 1.0
    ensures forall t :: 0 <= t < |ys| ==> y <= ys[t] < RowLimit
    decreases (RowLimit - y).Floor
  {
    if y < RowLimit then [y] + Rows(y + step, step) else []
  }

  /** Column positions x, x + Eps, ... while at most ColumnLimit. */
  function Columns(x: real): (xs: seq<real>)
    ensures forall t :: 0 <= t < |xs| ==> x <= xs[t] <= ColumnLimit
    decreases (ColumnLimit + 1.0 - x).Floor
  {
    if x <= ColumnLimit then [x] + Columns(x + Eps) else []
  }

  /** Row-major grid points: every column of the first row, then of the next row, ... */
  function Grid(ys: seq<real>, xs: seq<real>): (g: seq<Vec>)
    ensures |g| == |ys| * |xs|
    decreases |ys|
  {
    if |ys| == 0 then [] else Row(ys[0], xs) + Grid(ys[1..], xs)
  }

  function Row(y: real, xs: seq<real>): (r: seq<Vec>)
    ensures |r| == |xs|
    ensures forall t :: 0 <= t < |xs| ==> r[t] == Vec(xs[t], y)
  {
    seq(|xs|, t requires 0 <= t < |xs| => Vec(xs[t], y))
  }

  /** Grid points of the initial block (pitch Eps both ways). */
  function SeedGrid(): seq<Vec> {
    Grid(Rows(FirstRowY, Eps), Columns(FirstColumnX))
  }

  /** Grid points of an added batch (vertical pitch 0.95 Eps). */
  function BatchGrid(): seq<Vec> {
    Grid(Rows(FirstRowY, BatchStep), Columns(FirstColumnX))
  }

  lemma {:induction false} RowsCount(k: nat)
    requires k <= 20
    ensures |Rows(FirstRowY + k as real * Eps, Eps)| == 20 - k
    decreases 20 - k
  {
    if k < 20 {
      RowsCount(k + 1);
      assert FirstRowY + k as real * Eps + Eps == FirstRowY + (k + 1) as real * Eps;
    }
  }

  lemma {:induction false} ColumnsCount(k: nat)
    requires k <= 19
    ensures |Columns(FirstColumnX + k as real * Eps)| == 19 - k
    decreases 19 - k
  {
    if k < 19 {
      ColumnsCount(k + 1);
      assert FirstColumnX + k as real * Eps + Eps == FirstColumnX + (k + 1) as real * Eps;
    }
  }

  /** The initial block is 20 rows of 19 columns: 380 points, fewer than NumParticles. */
  lemma SeedGridSize()
    ensures |SeedGrid()| == 380 < NumParticles
  {
    RowsCount(0);
    ColumnsCount(0);
  }

  lemma {:induction false} BatchRowsCount(k: nat)
    requires k <= 22
    ensures |Rows(FirstRowY + k as real * BatchStep, BatchStep)| == 22 - k
    decreases 22 - k
  {
    var y := FirstRowY + k as real * BatchStep;
    assert BatchStep == 15.2 && FirstRowY == 1164.0 && RowLimit == 1484.0;
    if k < 22 {
      assert y < RowLimit;
      BatchRowsCount(k + 1);
      assert y + BatchStep == FirstRowY + (k + 1) as real * BatchStep;
    } else {
      assert y >= RowLimit;
    }
  }

  /** An added batch visits 22 rows of 19 columns: 418 points. */
  lemma BatchGridSize()
    ensures |BatchGrid()| == 418
  {
    BatchRowsCount(0);
    ColumnsCount(0);
  }

  // ---------------------------------------------------------------------
  // Seeding.

  /** The particles and the draws left over. */
  datatype Filled = Filled(ps: seq<Particle>, rest: seq<real>)

  /** A new particle at grid point g, jittered right by `draw`. */
  function Spawn(g: Vec, draw: real): Particle {
    ParticleAt(Vec(g.x + draw, g.y))
  }

  /** What both seeding loops promise: append, in grid order from point t, one jittered particle per draw, up to `cap` particles in all. */
  predicate Appends(ps: seq<Particle>, grid: seq<Vec>, t: nat, draws: seq<real>, cap: nat, r: Filled)
    requires t <= |grid|
  {
    var added := |r.ps| - |ps|;
    && |ps| <= |r.ps|
    && r.ps[..|ps|] == ps
    && (|ps| >= cap ==> added == 0)
    && (|ps| < cap ==> |r.ps| == Min(cap, |ps| + |grid| - t))
    && added <= |draws|
    && r.rest == draws[added..]
    && forall u :: 0 <= u < added ==> r.ps[|ps| + u] == Spawn(grid[t + u], draws[u])
  }

  /** Appending at point t and then from t + 1 on is appending from t on. */
  lemma AppendsStep(ps: seq<Particle>, grid: seq<Vec>, t: nat, draws: seq<real>, cap: nat, r: Filled)
    requires t < |grid| && |ps| < cap && |draws| > 0
    requires Appends(ps + [Spawn(grid[t], draws[0])], grid, t + 1, draws[1..], cap, r)
    ensures Appends(ps, grid, t, draws, cap, r)
  {
    var ps' := ps + [Spawn(grid[t], draws[0])];
    assert r.ps[..|ps|] == r.ps[..|ps'|][..|ps|];
    var added := |r.ps| - |ps|;
    forall u | 0 <= u < added
      ensures r.ps[|ps| + u] == Spawn(grid[t + u], draws[u])
    {
      if u == 0 {
        assert r.ps[|ps|] == r.ps[..|ps'|][|ps|];
      } else {
        assert r.ps[|ps'| + (u - 1)] == Spawn(grid[t + 1 + (u - 1)], draws[1..][u - 1]);
      }
    }
    assert draws[1..][added - 1..] == draws[added..];
  }

  function Min(a: int, b: int): int {
    if a <= b then a else b
  }

  /** `initSPHSystem`'s loop from grid point t: append while below `cap`, and return at the first point where the list is full. */
  function SeedFrom(ps: seq<Particle>, grid: seq<Vec>, t: nat, draws: seq<real>, cap: nat): (r: Filled)
    requires t <= |grid|
    requires |ps| + |draws| >= cap
    ensures Appends(ps, grid, t, draws, cap, r)
    decreases |grid| - t
  {
    if t == |grid| then Filled(ps, draws)
    else if |ps| < cap then
      var r := SeedFrom(ps + [Spawn(grid[t], draws[0])], grid, t + 1, draws[1..], cap);
      AppendsStep(ps, grid, t, draws, cap, r);
      r
    else Filled(ps, draws)
  }

  /** The ' ' batch loop from grid point t: append while below `cap`, otherwise skip the point and go on. */
  function BatchFrom(ps: seq<Particle>, grid: seq<Vec>, t: nat, draws: seq<real>, cap: nat): (r: Filled)
    requires t <= |grid|
    requires |ps| + |draws| >= cap
    ensures Appends(ps, grid, t, draws, cap, r)
    decreases |grid| - t
  {
    if t == |grid| then Filled(ps, draws)
    else if |ps| < cap then
      var r := BatchFrom(ps + [Spawn(grid[t], draws[0])], grid, t + 1, draws[1..], cap);
      AppendsStep(ps, grid, t, draws, cap, r);
      r
    else BatchFrom(ps, grid, t + 1, draws, cap)
  }

  /** A restart: the list is emptied, then the initial block is seeded into it. */
  function InitialBlock(draws: seq<real>): (r: Filled)
    requires |draws| >= NumParticles
    ensures |r.ps| == 380 <= NumParticles
    ensures forall u :: 0 <= u < |r.ps| ==> u < |SeedGrid()| && r.ps[u] == Spawn(SeedGrid()[u], draws[u])
    ensures r.rest == draws[380..]
  {
    SeedGridSize();
    SeedFrom([], SeedGrid(), 0, draws, NumParticles)
  }

  /** Seeding never grows a list beyond NumParticles, and leaves an already full list alone. */
  lemma SeedCapped(ps: seq<Particle>, draws: seq<real>)
    requires |ps| + |draws| >= NumParticles
    ensures var r := SeedFrom(ps, SeedGrid(), 0, draws, NumParticles);
      && |r.ps| <= (if |ps| < NumParticles then NumParticles else |ps|)
      && (|ps| >= NumParticles ==> r.ps == ps)
  {
    var r := SeedFrom(ps, SeedGrid(), 0, draws, NumParticles);
    if |ps| >= NumParticles {
      assert r.ps == r.ps[..|ps|];
    }
  }

  /** The ' ' command: warn and do nothing at MaxParticles, otherwise append a batch up to MaxParticles. */
  function AddBatch(ps: seq<Particle>, draws: seq<real>): (r: Filled)
    requires |ps| + |draws| >= MaxParticles
    ensures |ps| >= MaxParticles ==> r == Filled(ps, draws)
    ensures |ps| < MaxParticles ==> |ps| < |r.ps| <= MaxParticles && r.ps[..|ps|] == ps
    ensures |ps| < MaxParticles ==> |r.ps| == Min(MaxParticles, |ps| + 418)
    ensures forall u :: |ps| <= u < |r.ps| ==>
      u - |ps| < |BatchGrid()| && r.ps[u] == Spawn(BatchGrid()[u - |ps|], draws[u - |ps|])
  {
    if |ps| >= MaxParticles then Filled(ps, draws)
    else
      BatchGridSize();
      BatchFrom(ps, BatchGrid(), 0, draws, MaxParticles)
  }

  // ---------------------------------------------------------------------
  // The system and its commands.

  datatype System = System(
    particles: seq<Particle>,
    walls: seq<Wall>,
    particleOnly: bool,
    mazeLength: int,
    threshold: real)

  /** The configuration accepted by the start-up prompt. */
  predicate ValidConfig(L: int, threshold: real) {
    ValidLength(L) && MinThreshold <= threshold <= MaxThreshold
  }

  /** Enough draws for any command: a full maze plus a full batch. */
  predicate EnoughDraws(L: int, draws: seq<real>)
    requires L >= 1
  {
    |draws| >= DrawCount(L) + MaxParticles
  }

  /** A new state and the draws left over. */
  datatype Transition = Transition(sys: System, rest: seq<real>)

  /** Start-up after the prompt: generate the maze, seed the block, latch cleared. */
  function Initialize(L: int, threshold: real, draws: seq<real>): (t: Transition)
    requires ValidConfig(L, threshold) && EnoughDraws(L, draws)
    ensures t.sys.walls == GenerateMaze(L, threshold, draws).walls
    ensures t.sys.particles == InitialBlock(draws[DrawCount(L)..]).ps
    ensures |t.sys.particles| == 380
    ensures t.rest == draws[DrawCount(L) + 380..]
    ensures !t.sys.particleOnly
    ensures t.sys.mazeLength == L && t.sys.threshold == threshold
  {
    var g := GenerateMaze(L, threshold, draws);
    var b := InitialBlock(g.rest);
    Transition(System(b.ps, g.walls, false, L, threshold), b.rest)
  }

  /** `keyPress` for the keys that change state; any other key leaves everything as it is. */
  function KeyPress(s: System, key: char, draws: seq<real>): (t: Transition)
    requires ValidConfig(s.mazeLength, s.threshold) && EnoughDraws(s.mazeLength, draws)
    ensures t.sys.mazeLength == s.mazeLength && t.sys.threshold == s.threshold
    ensures key == ' ' ==> t.sys.walls == s.walls && t.sys.particleOnly == s.particleOnly
    ensures key == ' ' ==> t.sys.particles == AddBatch(s.particles, draws).ps
    ensures key == ' ' && |s.particles| >= MaxParticles ==> t.sys == s
    ensures key == ' ' && |s.particles| < MaxParticles ==>
      |s.particles| < |t.sys.particles| <= MaxParticles && t.sys.particles[..|s.particles|] == s.particles
    ensures key == 'r' || key == 'R' ==>
      t.sys.walls == s.walls && t.sys.particleOnly == s.particleOnly && |t.sys.particles| == 380
    ensures key == 'm' ==>
      t.sys.walls == GenerateMaze(s.mazeLength, s.threshold, draws).walls
      && !t.sys.particleOnly && |t.sys.particles| == 380
    ensures key == 'p' ==> t.sys.walls == [] && t.sys.particleOnly && |t.sys.particles| == 380
    ensures key == 'r' || key == 'R' || key == 'p' ==> t.sys.particles == InitialBlock(draws).ps
    ensures key == 'm' ==> t.sys.particles == InitialBlock(draws[DrawCount(s.mazeLength)..]).ps
    ensures key !in {' ', 'r', 'R', 'm', 'p'} ==> t == Transition(s, draws)
  {
    match key
    case ' ' =>
      var b := AddBatch(s.particles, draws);
      Transition(s.(particles := b.ps), b.rest)
    case 'r' =>
      var b := InitialBlock(draws);
      Transition(s.(particles := b.ps), b.rest)
    case 'R' =>
      var b := InitialBlock(draws);
      Transition(s.(particles := b.ps), b.rest)
    case 'm' =>
      var g := GenerateMaze(s.mazeLength, s.threshold, draws);
      var b := InitialBlock(g.rest);
      Transition(s.(particles := b.ps, walls := g.walls, particleOnly := false), b.rest)
    case 'p' =>
      var b := InitialBlock(draws);
      Transition(s.(particles := b.ps, walls := [], particleOnly := true), b.rest)
    case _ => Transition(s, draws)
  }

  /** Restarting is idempotent: 'r' twice with the same draws gives the same particles. */
  lemma RestartIdempotent(s: System, draws: seq<real>)
    requires ValidConfig(s.mazeLength, s.threshold) && EnoughDraws(s.mazeLength, draws)
    ensures var once := KeyPress(s, 'r', draws).sys;
      KeyPress(once, 'r', draws).sys == once
  {
  }

  /** One frame: rebuild the index, recompute density and pressure, apply `advance` (forces and integration), then the boundary and wall step. */
  method Step(s: System, k: Params, advance: (seq<Particle>, int) -> Particle) returns (r: System)
    requires ValidParams(k)
    ensures |r.particles| == |s.particles|
    ensures r.walls == s.walls && r.mazeLength == s.mazeLength && r.threshold == s.threshold
    ensures s.particleOnly ==> r.particleOnly
    ensures r.particleOnly <==>
      (s.particleOnly || exists i :: 0 <= i < |s.particles| && Advanced(k, s.particles, advance)[i].pos.y - Eps < 0.0)
    ensures forall i :: 0 <= i < |r.particles| ==>
      r.particles[i] == MoveParticle(Advanced(k, s.particles, advance)[i], s.walls, s.particleOnly).0
  {
    var index := Rebuild(s.particles);
    var dens := ComputeDensityPressure(k, s.particles, index);
    assert dens == DensityPassResult(k, s.particles);
    var moved := seq(|dens|, i requires 0 <= i < |dens| => advance(dens, i));
    assert moved == Advanced(k, s.particles, advance);
    var m := MoveAll(moved, s.walls, s.particleOnly);
    r := s.(particles := m.ps, particleOnly := m.particleOnly);
  }

  /** The density pass on a freshly rebuilt index: positions kept, every density at least the self term. */
  function DensityPassResult(k: Params, ps: seq<Particle>): (r: seq<Particle>)
    requires ValidParams(k)
    ensures |r| == |ps|
    ensures forall i :: 0 <= i < |ps| ==> r[i].pos == ps[i].pos && r[i].density >= SelfTerm(k)
  {
    AllDensitiesPositive(k, ps);
    seq(|ps|, i requires 0 <= i < |ps| => Refresh(k, ps[i], FindNeighbors(Rebuild(ps), ps[i])))
  }

  lemma AllDensitiesPositive(k: Params, ps: seq<Particle>)
    requires ValidParams(k)
    ensures forall i :: 0 <= i < |ps| ==> Density(k, ps[i], FindNeighbors(Rebuild(ps), ps[i])) >= SelfTerm(k)
  {
    forall i | 0 <= i < |ps|
      ensures Density(k, ps[i], FindNeighbors(Rebuild(ps), ps[i])) >= SelfTerm(k)
    {
      DensityPositive(k, ps, ps[i]);
    }
  }

  /** The particles as the force and integration code (a parameter here) leaves them. */
  function Advanced(k: Params, ps: seq<Particle>, advance: (seq<Particle>, int) -> Particle): seq<Particle>
    requires ValidParams(k)
  {
    var dens := DensityPassResult(k, ps);
    seq(|ps|, i requires 0 <= i < |ps| => advance(dens, i))
  }
}
