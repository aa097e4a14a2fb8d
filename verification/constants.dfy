/**
 The simulation's fixed configuration and the particle record.

 Every quantity is an exact real: the single- and double-precision rounding
 of the program is not modelled. The numeric values are those the
 program is built with (a 600x1000 window scaled by 1.5, a kernel radius of
 16, a spatial-hash cell of 15).
 */
module Constants {

  /** Width and height of the simulated domain (1.5 times the window). */
  const ViewWidth: real := 900.0
  const ViewHeight: real := 1500.0

  /** Kernel (smoothing) radius; also the boundary margin and the seeding pitch. */
  const Eps: real := 16.0

  /** Factor applied to a velocity component on every boundary or wall hit. */
  const BoundDamping: real := -0.5

  /** Height of the maze's top edge: 400 below the top of the domain. */
  const MarginTop: real := 1100.0

  /** Side of a spatial-hash cell: the integer ViewWidth / 60. */
  const CellDim: real := 15.0

  /** Multiplier of the row coordinate in a spatial-hash key. */
  const RowStride: int := 1000

  /** Cap on the particle count for the initial seeding and for added batches. */
  const NumParticles: nat := 500
  const MaxParticles: nat := 2500

  /** Accepted range of the maze dimension and of the wall threshold. */
  const MinMazeLength: int := 5
  const MaxMazeLength: int := 50
  const MinThreshold: real := 0.3
  const MaxThreshold: real := 0.7

  /** A 2-D vector over the reals. */
  datatype Vec = Vec(x: real, y: real)

  const Zero: Vec := Vec(0.0, 0.0)

  /** No element occurs twice. */
  predicate Distinct<T(==)>(s: seq<T>) {
    forall a, b :: 0 <= a < b < |s| ==> s[a] != s[b]
  }

  /** A fluid particle; the display colour is not part of the model. */
  datatype Particle = Particle(pos: Vec, vel: Vec, force: Vec, density: real, pressure: real)

  /** A particle at rest at `pos`, as the program's two-argument constructor makes it. */
  function ParticleAt(pos: Vec): Particle
  {
    Particle(pos, Zero, Zero, 0.0, 0.0)
  }
}
