# FluidSimulation core in Dafny

This project models the simulation core of FluidSimulation, a 2-D SPH
(smoothed particle hydrodynamics) "falling water through a random maze"
program (`src/main.cpp`). The model covers:

- the maze generator, `drawMaze`;
- the initial "dam break" seeding, `initSPHSystem`;
- the uniform-grid spatial hash, `spatialHashing`, `SHhash` and `findNeighbors`;
- the density and pressure pass, `computeDensityPressure`;
- the boundary and maze-wall handling of `moveParticles`, including the
  "particle only" latch that a hit on the bottom edge sets;
- the keyboard commands `' '`, `r`/`R`, `m` and `p`;
- start-up after the configuration prompt, and one frame of `updateParticles`.

Modules, one per file:

- `Constants` (constants.dfy): the fixed configuration: a 900 x 1500 domain,
  kernel radius 16, damping -0.5, maze top 1100, hash cell 15, row stride 1000,
  and particle caps 500 and 2500. Also the `Vec` and `Particle` records.
- `MazeGen` (maze.dfy): the generator. It produces the entrance pair, then one
  kept wall for each draw that is strictly above its cut, then the exit pair.
  The cut is threshold + 0.1 for a horizontal wall and the threshold for a
  vertical one. Candidates are visited column by column, and within a column
  row by row, horizontal before vertical, as the two loops do.
- `SpatialHash` (spatial_hash.dfy): the index, the 3x3 block query, and a
  reference filter `InCells` that says which particles a query returns.
- `DensityPass` (density.dfy): the kernel sum, the in-place pass over the
  list, and properties of the sum.
- `Collision` (collision.dfy): the clamp against the four edges, the wall
  test and push, and the latch threaded through the list.
- `ParticleSystem` (particle_system.dfy): the seeding grids, the state, the
  commands and the frame step.

Arithmetic is exact: floats and doubles are reals. The value `rand()/RAND_MAX`
is read from an input sequence of draws, and every consumer returns the draws
it did not use.

Behaviour a reader might not expect, which the model keeps:

- **Seeding count.** `NUM_PARTICLES` is 500 and the start-up message
  announces 500 particles. The seeding grid, however, has 20 rows of 19
  columns, so only 380 particles are created and the cap never binds
  (`ParticleSystem.SeedGridSize`).
- **Wall push.** A wall hit does not mirror the particle across the wall
  line. It doubles the particle's offset from the line, on the same side
  (`Collision.PushKeepsSide`). Because the push comes after the edge clamp, it
  can carry a particle back outside the clamp box
  (`Collision.PushCanLeaveBox`).
- **Hash cell narrower than the kernel.** The hash cell is 15 wide and the
  kernel radius is 16. The 3x3 query returns every particle less than one
  cell away along each axis (`SpatialHash.NearbyIsNeighbor`), but it can miss
  a particle that lies inside the kernel. For example, two particles 15.5
  apart on one row fall two cells apart
  (`DensityPass.QueryCanMissKernelNeighbor`). Such a particle adds nothing to
  the density.
- **Division by density.** The force computation `computeExtForces` divides
  by a neighbour's density and by the particle's own density. The integration
  at the start of `moveParticles` also divides by the density. Neither has a
  zero guard. Within a frame none is needed: the density pass runs on a
  freshly rebuilt index, where every particle finds its own copy. Its density
  is therefore at least the positive self term (`DensityPass.DensityPositive`,
  `ParticleSystem.DensityPassResult`).

## Model

| member | source | states |
|---|---|---|
| `MazeGen.Seg` | src/main.cpp:173-175 | The cell side is positive and L cells span exactly the domain width. |
| `MazeGen.GapShape` | src/main.cpp:177-188 | The entrance gap is one cell wide for odd L and two for even L. It is centred (the two edges sum to the width) and lies strictly inside (0, width). |
| `MazeGen.BottomY` | src/main.cpp:224 | The exit row lies one domain width below the top edge, whatever L is. |
| `MazeGen.Candidates` | src/main.cpp:191-220 | The loops consume exactly 2L(L-1) random draws. |
| `MazeGen.CandidateMembership` | src/main.cpp:191-220 | A candidate wall is visited exactly when 0 <= i < L and 1 <= j <= L, a horizontal one only for j != L, and a vertical one only for i != L-1. |
| `MazeGen.CandidatesDistinct` | src/main.cpp:191-220 | No candidate wall is visited twice. |
| `MazeGen.CandidateWallShape` | src/main.cpp:199-216 | Every visited candidate's wall has the candidate's axis, is one cell long, and lies inside the maze's bounding box. |
| `MazeGen.HorizontalWallShape` | src/main.cpp:199-203 | A horizontal candidate wall runs one cell to the right of its start and stays inside the box. |
| `MazeGen.VerticalWallShape` | src/main.cpp:212-215 | A vertical candidate wall runs one cell upward from its start and stays inside the box. |
| `MazeGen.WallOfInjective` | src/main.cpp:200-214 | Different visited candidates produce different walls. |
| `MazeGen.KeptCount` | src/main.cpp:197-218 | The number of interior walls pushed equals the number of draws strictly above their cut. |
| `MazeGen.KeptMembership` | src/main.cpp:197-218 | A wall is pushed exactly when some candidate's draw is strictly above its cut and the candidate produces that wall. |
| `MazeGen.GenerateMaze` | src/main.cpp:171-233 | The maze starts with the entrance pair at y = 1100 and ends with the exit pair at the bottom row. It holds at least four walls, all axis-aligned, ordered and inside the box, and it leaves the draws after the first 2L(L-1) unused. |
| `MazeGen.OpeningsWellFormed` | src/main.cpp:177-188 | The entrance and exit segments are horizontal, ordered and inside the box. |
| `MazeGen.InteriorIsKept` | src/main.cpp:190-220 | Everything between the entrance and exit pairs is the kept candidate walls, in draw order. |
| `MazeGen.MazeWallCount` | src/main.cpp:171-233 | The maze holds four opening segments plus one wall per passing draw. |
| `MazeGen.InteriorWallsAreCandidates` | src/main.cpp:190-220 | Every interior wall is the one-cell wall of some visited candidate. |
| `MazeGen.InteriorIff` | src/main.cpp:197-218 | The k-th candidate's wall appears in the maze if and only if the k-th draw is strictly above its cut. The cut is threshold + 0.1 for horizontal walls and the threshold for vertical walls. |
| `MazeGen.NotAnOpening` | src/main.cpp:177-232 | No candidate wall coincides with an entrance or exit segment. |
| `SpatialHash.TruncTowardZero` | src/main.cpp:285 | The float-to-int conversion drops the fractional part. The result is at most r and within 1 below it for r >= 0, and at least r and within 1 above it for r < 0. |
| `SpatialHash.NearbyInBlock` | src/main.cpp:283-297 | For non-negative coordinates, a particle less than one cell from p along each axis has its key among the nine keys the query visits around p's key. |
| `SpatialHash.NearbyIsNeighbor` | src/main.cpp:272-306 | On a rebuilt index, the query around p returns every listed particle less than one cell away along each axis. |
| `SpatialHash.FarNotNeighbor` | src/main.cpp:272-306 | A particle whose key is outside p's 3x3 block is never returned by the query around p. |
| `SpatialHash.Insert` | src/main.cpp:277-278 | Appending a particle adds its key, extends its own bucket by that particle, and leaves every other bucket unchanged. |
| `SpatialHash.RebuildBuckets` | src/main.cpp:272-280 | After a rebuild, each key's bucket holds exactly the list's particles with that key, in list order. |
| `SpatialHash.RebuildKeys` | src/main.cpp:272-280 | A key is present after a rebuild if and only if some particle hashes to it. |
| `SpatialHash.RebuildPlacesOnce` | src/main.cpp:272-286 | Each particle of the list lies in the bucket of its own key and in no other bucket. |
| `SpatialHash.RebuildSizesSum` | src/main.cpp:272-280 | Summed over the present keys, the bucket sizes add up to the number of particles. |
| `SpatialHash.BlockKeys` | src/main.cpp:292-297 | The query visits nine keys, cell + i*1000 + j for i, j in -1..1, row offset outer. |
| `SpatialHash.BlockKeysDistinct` | src/main.cpp:293-297 | The nine keys of a block are pairwise different. |
| `SpatialHash.Gather` | src/main.cpp:293-304 | A particle is returned exactly when it lies in the bucket of a visited key; absent keys contribute nothing. |
| `SpatialHash.GatherLength` | src/main.cpp:298-302 | A query returns as many particles as the visited buckets hold together. |
| `SpatialHash.GatherAfterRebuild` | src/main.cpp:272-304 | On a rebuilt index, gathering distinct keys gives, with multiplicity, the particles whose key is among them. |
| `SpatialHash.NeighborsAfterRebuild` | src/main.cpp:288-306 | On a rebuilt index, a query gives, with multiplicity and the same count, exactly the particles whose cell is in the 3x3 block around the query point. |
| `SpatialHash.SelfIsNeighbor` | src/main.cpp:288-306 | A particle of the list always finds its own copy among its neighbours. |
| `DensityPass.Contribution` | src/main.cpp:315-321 | A neighbour contributes nothing at squared distance >= HSQ and a strictly positive amount inside the kernel. |
| `DensityPass.Density` | src/main.cpp:312-322 | The accumulated density is never negative. |
| `DensityPass.Refresh` | src/main.cpp:310-324 | The pass changes only density and pressure. The density is non-negative, pressure is GAS_CONST * (density - REST_DENS), and pressure is negative exactly when density is below the rest density. |
| `DensityPass.PressureSign` | src/main.cpp:323 | With a positive gas constant, the pressure has the sign of the density excess. |
| `DensityPass.DensityConcat` | src/main.cpp:313-322 | The density over two neighbour lists, one after the other, is the sum of the two densities. |
| `DensityPass.DensityRemove` | src/main.cpp:313-322 | Removing one neighbour from the list removes exactly its term from the density. |
| `DensityPass.DensityPermutation` | src/main.cpp:313-322 | The density does not depend on the order of the neighbours. |
| `DensityPass.DensityReadsPositionsOnly` | src/main.cpp:313-321 | Only positions are read: neighbours with the same positions give the same density, whatever their other fields hold. |
| `DensityPass.DensityAtLeastTerm` | src/main.cpp:313-322 | Every neighbour's term is a lower bound on the density. |
| `DensityPass.SelfContribution` | src/main.cpp:315-320 | A particle's own copy lies at distance zero and contributes mass * poly6 * HSQ^3. |
| `DensityPass.DensityPositive` | src/main.cpp:264-265 | On an index rebuilt from a list holding p, p's density is at least its self term, so it is strictly positive. |
| `DensityPass.DensityIsBlockSum` | src/main.cpp:288-322 | On a rebuilt index, p's density is the kernel sum over exactly the list's particles whose cell lies in p's 3x3 block. |
| `DensityPass.QueryCanMissKernelNeighbor` | src/main.cpp:283-321 | Two particles at (29.5, 50) and (45, 50) are within the kernel (squared distance below 16^2), yet the query around the first does not return the second. |
| `DensityPass.AccumulateDensity` | src/main.cpp:312-322 | The inner loop's running total ends at the kernel sum over all neighbours. |
| `DensityPass.ComputeDensityPressure` | src/main.cpp:308-325 | Every particle of the list is refreshed from its own neighbour query, and the length is kept. |
| `DensityPass.OrderIndependent` | src/main.cpp:310-324 | Refreshing the particles in any visiting order gives the same list as the program's list order. |
| `Collision.BoundaryClamp` | src/main.cpp:360-384 | Each edge test damps and resets exactly the coordinate that crossed, leaves an in-range coordinate alone, and ends inside [16, 884] x [16, 1484]. The bottom hit is reported exactly when y - EPS < 0. |
| `Collision.ClampIdempotent` | src/main.cpp:360-384 | Clamping an already clamped particle changes nothing and reports no bottom hit. |
| `Collision.WallPush` | src/main.cpp:386-402 | A particle out of a wall's reach is unchanged. A hit damps the perpendicular velocity and doubles the perpendicular offset from the wall line; the other axis is untouched. |
| `Collision.PushKeepsSide` | src/main.cpp:390-401 | The push keeps the particle on its side of the wall line at twice the distance, and halves and reverses its perpendicular speed. |
| `Collision.PushWalls` | src/main.cpp:385-403 | Walls never increase a speed component. With no wall in reach the particle is unchanged, and walls of one axis leave the other axis alone. |
| `Collision.MoveParticle` | src/main.cpp:360-403 | The latch is set after a particle exactly when it was set before or the particle crossed the bottom edge. |
| `Collision.MoveAll` | src/main.cpp:354-405 | Every particle is handled independently with the incoming latch. The latch ends set if and only if it was set or some particle crossed the bottom edge. |
| `Collision.PushCanLeaveBox` | src/main.cpp:360-403 | With a 50-cell maze, a particle at x = 10 next to the first vertical wall ends at x = 14, left of the clamp margin. |
| `ParticleSystem.SeedGridSize` | src/main.cpp:239-241 | The initial grid has 380 points, fewer than NUM_PARTICLES. |
| `ParticleSystem.BatchGridSize` | src/main.cpp:419-421 | An added batch visits 418 grid points: 22 rows at pitch 0.95 * EPS and 19 columns. |
| `ParticleSystem.SeedFrom` | src/main.cpp:239-258 | The seeding loop keeps the existing particles as a prefix. Below the cap it appends one jittered particle per draw, in grid order, up to min(cap, points left). At the cap it adds nothing. |
| `ParticleSystem.BatchFrom` | src/main.cpp:419-434 | The batch loop keeps the prefix and appends jittered particles in grid order up to min(cap, points left), one draw each. |
| `ParticleSystem.InitialBlock` | src/main.cpp:236-259 | Restarting from empty seeds 380 particles. Particle u sits at grid point u shifted right by draw u, and exactly 380 draws are consumed. |
| `ParticleSystem.SeedCapped` | src/main.cpp:243-256 | Seeding never takes a list past NUM_PARTICLES and leaves a full list unchanged. |
| `ParticleSystem.AddBatch` | src/main.cpp:412-436 | At MAX_PARTICLES the space key changes nothing. Otherwise it keeps the old particles and appends min(MAX_PARTICLES - n, 418) jittered particles in grid order. |
| `ParticleSystem.Initialize` | src/main.cpp:98-109 | Start-up builds the maze from the first 2L(L-1) draws. It then seeds exactly the initial block of 380 particles from the next draws, clears the latch and records the configuration. The draws after those 380 are left over. |
| `ParticleSystem.KeyPress` | src/main.cpp:408-455 | Space keeps walls and latch. Its particles are the capped batch appended to the old list, or the old list unchanged at the cap. 'r'/'R' throw the old particles away and replace them with the freshly seeded initial block, keeping walls and latch. 'm' builds a new maze, replaces the particles with the block seeded from the draws the maze left, and clears the latch. 'p' drops the maze, replaces the particles with the initial block, and sets the latch. Every other key changes nothing. |
| `ParticleSystem.RestartIdempotent` | src/main.cpp:437-441 | Pressing 'r' twice with the same draws gives the same state as pressing it once. |
| `ParticleSystem.Step` | src/main.cpp:262-270 | A frame keeps the particle count, walls and configuration. The latch is monotone, and ends set exactly when it was set or some advanced particle crossed the bottom edge. Each particle ends as the boundary and wall step of its advanced self. |
| `ParticleSystem.DensityPassResult` | src/main.cpp:264-265 | Within a frame, the density pass on the freshly rebuilt index keeps positions and gives every particle at least the self-term density. |

## Left out

- The force computation `computeExtForces` (src/main.cpp:328-349) and the
  integration at the start of `moveParticles` (src/main.cpp:356-358) are not
  modelled numerically. `ParticleSystem.Step` takes them as a function
  parameter `advance`: square roots, `pow`, normalisation and division by
  density are floating-point numerics that exact reals do not capture.
- Kernel constants: POLY6 involves pi and a float `pow`, so mass, POLY6, HSQ,
  the gas constant and the rest density are a parameter record. Only their
  positivity is assumed.
- Float rounding: every quantity is an exact real. In particular, the batch
  rows are stepped by 15.2, and `ParticleSystem.BatchGridSize` counts the 22
  rows over exact reals.
- `rand()`: it is an input sequence of arbitrary reals. No result depends on
  the draws lying in [0, 1], which `rand()/RAND_MAX` would ensure. Each operation
  requires enough draws: a full maze plus a full batch for any command.
- The particle colour tiers (src/main.cpp:247-249, 427-429): presentation
  only. The draw they read is the same one used as the jitter, which the
  model keeps.
- The configuration prompt loop (src/main.cpp:98-104): it becomes the
  `ValidConfig` precondition (5 <= L <= 50, 0.3 <= threshold <= 0.7).
- Console messages (the start-up text, "Maximum allowed number of particles
  reached" and "This Random Maze is Solvable!!"): output only.
- GLUT set-up, `display`, `reshape`, `keyRelease` (ESC exits) and the
  redisplay request: rendering and windowing.
- Global state: `drawMaze` appends to the global wall list. It is always
  called on an empty list, so `MazeGen.GenerateMaze` returns a fresh list.
- No containment claim for the whole step: the program does not guarantee
  that particles stay in the domain (`Collision.PushCanLeaveBox`).
