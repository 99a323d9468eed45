# PhySim collision pipeline in Dafny

A model of the core of PhySim, a 2-D particle simulator (`PhySim/PhyObjects.py`):

- **Narrow phase.** A `MassPoint` is a disc with a position, a velocity, an acceleration, a mass, a charge and a radius. `update` advances it by explicit Euler. `particle_collision` separates two overlapping discs about their midpoint and applies the one-dimensional elastic formulas to the whole velocity vectors. `wall_collision` pushes a disc out of an axis-aligned `Wall` along the axis of least penetration, or along both axes on a tie, and reflects the velocity on that axis.
- **Broad phase.** `Particles` is a spatial hash. `intCoords` truncates a coordinate to a grid cell three mean radii wide. `hashCoords` XOR-mixes a cell into one of `2N` buckets. `Hash` builds the index (`cellStart`, `cellEntries`) by a three-pass counting sort. `query` gathers, without repeats, every particle filed under the buckets of a square of cells. `Collision` queries around each particle in turn and resolves each unordered pair `{i, j}` at most once.
- **Simulation glue.** `Simulation` builds the window borders from the four enable flags. `naive_particles_collisions` resolves every pair `i < j`. `wall_collisons` takes every particle through the user walls and then the borders. One frame of `run` updates all particles, then resolves pairs (naively, or by `Hash` + `Collision`), then resolves walls.

Modules, one per file:

| file | module | contents |
|---|---|---|
| `vectors.dfy` | `Vectors` | plane vectors (numpy length-2 arrays) and the unit separation axis |
| `bodies.dfy` | `Bodies` | `Body`, `Wall`, the value semantics of the three `MassPoint` operations, and class `MassPoint` |
| `collision_laws.dfy` | `CollisionLaws` | the laws of the time step, of the particle response and of the wall response |
| `spatial_hash.dfy` | `SpatialHash` | truncation, the cell of a coordinate, Python's unbounded `^`, `hashCoords`, the buckets of a cell rectangle |
| `counting_sort.dfy` | `CountingSort` | the layout `Hash` produces, the prefix-sum pass, and the layout's properties |
| `pairs.dfy` | `Pairs` | logs of resolved pairs, the state a log produces, and the pair orders of both collision passes |
| `particles.dfy` | `ParticleSystem` | class `Particles`: lookup, mean radius, `Hash`, `query`, `Collision` |
| `simulation.dfy` | `Simulations` | wall passes, the borders, and class `Simulation` |

Modelling choices:

- Floats are `real`. The square-root overlap test `sqrt(d·d) < r1 + r2` is stated without a root as `0 < r1 + r2 && d·d < (r1 + r2)²`; the two agree because a length is never negative.
- The unit separation axis is a parameter. `particle_collision` draws a random angle when the centres coincide, so the pair-level operations take a function `unitAxis` from offset to axis. `Vectors.IsAxis` states what a true axis is, and `Vectors.AxisIsNormalisedOffset` shows that for a non-zero offset it is the offset divided by its length.
- Python's `int()` truncates toward zero, so `Trunc` rounds toward zero, not down. Python integers are unbounded, so `Xor` is bitwise XOR on unbounded two's-complement integers, and `HashCoords` uses the source's three constants exactly.
- `Particles.hash` is the cell hash. The constructor fixes it to `CellHash(N)`, while the proofs about `Hash` and `query` rely only on its range `[0, 2N)`.
- `Particles` keeps two ghost fields, `snapshot` and `buckets`: the positions, and their buckets, at the last `Hash`. This is what makes the stale-index behaviour of `Collision` explicit (see below).
- The `checked` list of `Collision` holds Python sets `{i, j}`. The model logs the pair as `(i, j)` and tests membership in both orientations, which is the same test. Every pass returns this log as a ghost value. The particles' final state is stated as `Resolve(initial, log)`, the log replayed through `particle_collision` in order.

Behaviour of the code worth knowing:

- **Time step.** The update is explicit Euler, not semi-implicit: the position moves with the velocity held before the step (`PhySim/PhyObjects.py:53-54`).
- **Grid cell.** The cell of a coordinate is truncating division, not floor division. Cell 0 therefore spans `(-spacing, spacing)`, twice the width of the other cells (`SpatialHash.CellZeroIsDoubleWidth`).
- **Index rebuild.** The rebuild has three passes: count, prefix sums, placement.
- **Stale index.** The index is not rebuilt inside `Collision`. Each caller queries around its *current* position, already moved by earlier pairs, against buckets computed at `Hash` time (`PhyObjects.py:260` against `422`). So the query guarantees hold only for positions as they were at `Hash` time. `Bookkept` records where each caller stood when it queried.
- **Touching discs.** The overlap test is strict. Two discs whose centres are exactly `r1 + r2` apart are left untouched (`CollisionLaws.CollideApart`); they do not exchange velocities.
- **No validation.** Nothing validates masses, radii or wall extents at construction. The model instead requires, where the code divides, that the divisor is non-zero.
- **Lookup.** An integer lookup that is out of range raises Python's `IndexError`, and negative indices count from the end.

## Model

| member | source | states |
|---|---|---|
| Bodies.MassPoint.constructor | PhySim/PhyObjects.py:14-33 | the new point holds the given position, velocity, mass, acceleration, charge and radius |
| Bodies.MassPoint.Update | PhySim/PhyObjects.py:45-54 | the new state is `Advance(old, dt)`: the position moves by `dt` times the old velocity, then the velocity by `dt` times the acceleration; nothing else changes |
| Bodies.MassPoint.WallCollision | PhySim/PhyObjects.py:56-98 | the new state is `WallHit(old, wall)`, computed from the edge overlaps as the source does; it needs a non-zero centre offset on each resolved axis |
| Bodies.MassPoint.ParticleCollision | PhySim/PhyObjects.py:101-134 | the new states of both points are `Collide(old1, old2, u)`, where `u` is the unit axis |
| Bodies.Advance | PhySim/PhyObjects.py:45-54 | the time step never changes acceleration, mass, charge or radius |
| Bodies.WallHit | PhySim/PhyObjects.py:56-98 | a wall collision never changes acceleration, mass, charge or radius |
| Bodies.Collide | PhySim/PhyObjects.py:108-134 | the particle response never changes acceleration, mass, charge or radius of either body |
| Bodies.DirectionOfOffset | PhySim/PhyObjects.py:89-96 | `d / abs(d)` is the sign of the non-zero offset `d` |
| Vectors.AxisIsNormalisedOffset | PhySim/PhyObjects.py:116-120 | a unit axis along a non-zero offset `d` is `d / |d|`: `d` is the axis scaled by `d·u`, and `(d·u)² = d·d` |
| CollisionLaws.AdvanceByZero | PhySim/PhyObjects.py:53-54 | a zero time step leaves the state unchanged |
| CollisionLaws.AdvanceThenRetreat | PhySim/PhyObjects.py:53-54 | a step of `dt` then `-dt` restores the velocity, and restores the whole state when there is no acceleration |
| CollisionLaws.CollideApart | PhySim/PhyObjects.py:111-112 | bodies that do not overlap are left exactly as they were |
| CollisionLaws.CollideLeavesTouching | PhySim/PhyObjects.py:122-124 | after an overlap the second centre minus the first is `u·(r1 + r2)`, so the discs end exactly touching |
| CollisionLaws.CollideKeepsMidpoint | PhySim/PhyObjects.py:122-124 | the bodies are placed one radius either side of the old midpoint along `u`; with equal radii the midpoint is unchanged |
| CollisionLaws.CollideSeparatesAlongOffset | PhySim/PhyObjects.py:116-124 | with the true axis the new offset points the same way as the old one |
| CollisionLaws.ElasticComponent | PhySim/PhyObjects.py:130-134 | on one velocity component the `c1`/`c2` formulas conserve momentum and kinetic energy |
| CollisionLaws.CollideConservesMomentum | PhySim/PhyObjects.py:126-134 | the total momentum `m1 v1 + m2 v2` is conserved |
| CollisionLaws.CollideConservesEnergy | PhySim/PhyObjects.py:126-134 | the total kinetic energy is conserved, as the source's comment claims |
| CollisionLaws.CollideEqualMassesSwap | PhySim/PhyObjects.py:130-134 | overlapping bodies of equal mass exchange velocities |
| CollisionLaws.WallHitMisses | PhySim/PhyObjects.py:82-86 | without strict overlap on both axes the wall changes nothing |
| CollisionLaws.WallHitResolvesLeastPenetration | PhySim/PhyObjects.py:86-98 | on overlap, the least-penetrated axis (both on a tie) is set to `wall.r ± (half extent + radius)` on the particle's side and its velocity negated; the other axis and the material are kept |
| CollisionLaws.WallHitClearsOverlap | PhySim/PhyObjects.py:86-98 | after `wall_collision` the particle no longer overlaps the wall |
| CollisionLaws.WallHitKeepsSpeed | PhySim/PhyObjects.py:92-98 | a wall bounce keeps the speed |
| SpatialHash.Trunc | PhySim/PhyObjects.py:198 | `int(x)` is the integer next to `x` toward zero |
| SpatialHash.CellCoord | PhySim/PhyObjects.py:194-198 | for a positive width `s`, the cell `c` of `x` brackets it: `c·s <= x < (c+1)·s` when `x >= 0`, and `(c-1)·s < x <= c·s` when `x < 0` |
| SpatialHash.TruncMonotone | PhySim/PhyObjects.py:198 | truncation is monotone |
| SpatialHash.CellCoordMonotone | PhySim/PhyObjects.py:194-198 | with a positive cell width, `intCoords` is monotone |
| SpatialHash.CellZeroIsDoubleWidth | PhySim/PhyObjects.py:194-198 | cell 0 holds exactly the coordinates in `(-spacing, spacing)` |
| SpatialHash.Xor | PhySim/PhyObjects.py:202 | `a ^ b` is negative exactly when one of `a`, `b` is |
| SpatialHash.XorZero | PhySim/PhyObjects.py:202 | `a ^ 0 == a` |
| SpatialHash.XorOnes | PhySim/PhyObjects.py:202 | `a ^ -1 == -a - 1` |
| SpatialHash.XorCancels | PhySim/PhyObjects.py:202 | `(a ^ b) ^ b == a` |
| SpatialHash.HashCoords | PhySim/PhyObjects.py:200-203 | `hashCoords` always yields a bucket in `[0, 2N)` |
| SpatialHash.CellHash | PhySim/PhyObjects.py:200-203 | over `N > 0` particles every cell hashes to a bucket in `[0, 2N)` |
| SpatialHash.RowBucketsHas | PhySim/PhyObjects.py:245-246 | the buckets of a column of cells include the bucket of each of its cells |
| SpatialHash.RowBucketsOnly | PhySim/PhyObjects.py:245-246 | and nothing else |
| SpatialHash.CellBucketsHas | PhySim/PhyObjects.py:244-246 | the buckets of a rectangle of cells include the bucket of each of its cells |
| SpatialHash.CellBucketsOnly | PhySim/PhyObjects.py:244-246 | and nothing else |
| SpatialHash.QueryRangeCovers | PhySim/PhyObjects.py:238-246 | a point within `maxDist` of the query point on both axes has its cell inside the walked cell range |
| CountingSort.CountBelowMonotone | PhySim/PhyObjects.py:220-225 | the number of particles in buckets below `b` grows with `b` |
| CountingSort.CountBelowEnds | PhySim/PhyObjects.py:220-225 | no particle is below bucket 0 and all `N` are below bucket `2N` |
| CountingSort.PrefixSums | PhySim/PhyObjects.py:220-225 | the prefix-sum pass turns per-bucket counts into bucket ends, and the last slot holds `N` |
| CountingSort.SlotInBucket | PhySim/PhyObjects.py:227-231 | the slot where placement puts particle `i` lies in its bucket's slice |
| CountingSort.SlotInjective | PhySim/PhyObjects.py:227-231 | no two particles are placed in the same slot |
| CountingSort.SlotOnto | PhySim/PhyObjects.py:227-231 | every slot receives some particle |
| CountingSort.PlaceStep | PhySim/PhyObjects.py:227-231 | one placement step decrements the bucket start to the particle's slot and writes it there |
| CountingSort.LayoutStarts | PhySim/PhyObjects.py:210-225 | after `Hash`, `cellStart[0] = 0`, `cellStart[2N] = N` and `cellStart` never decreases |
| CountingSort.LayoutPermutation | PhySim/PhyObjects.py:227-231 | after `Hash`, `cellEntries` holds each particle index exactly once |
| CountingSort.EntryInOwnBucket | PhySim/PhyObjects.py:227-231 | an entry inside bucket `b`'s slice is a particle hashed to `b` |
| CountingSort.LayoutSlice | PhySim/PhyObjects.py:227-231 | bucket `b`'s slice `cellEntries[cellStart[b]:cellStart[b+1]]` holds exactly the particles hashed to `b` |
| CountingSort.LayoutUnique | PhySim/PhyObjects.py:210-234 | the layout is determined by the buckets, so rebuilding from unchanged positions reproduces it |
| ParticleSystem.Particles.constructor | PhySim/PhyObjects.py:170-172 | the collection holds the given particles and `N` is their count; when `N > 0` every cell hashes to `hashCoords` of it over `2N` buckets |
| ParticleSystem.Particles.FirstAt | PhySim/PhyObjects.py:178-181 | the first particle whose centre is exactly the given point, if any |
| ParticleSystem.Particles.Get | PhySim/PhyObjects.py:177-186 | an integer index yields `P[index]` (negative indices from the end) or `IndexError`; a coordinate pair yields the first particle at exactly that point, or `None` when there is none; anything else yields `TypeError` |
| ParticleSystem.SumRadiiBetween | PhySim/PhyObjects.py:189-191 | radii in `[lo, hi]` sum to between `N·lo` and `N·hi` |
| ParticleSystem.RadiusExtremes | PhySim/PhyObjects.py:188-192 | `MinRadius` and `MaxRadius` bound every radius and are each the radius of some particle |
| ParticleSystem.Particles.MeanRadius | PhySim/PhyObjects.py:188-192 | the mean radius lies between the smallest and the largest radius |
| ParticleSystem.Particles.IntCoords | PhySim/PhyObjects.py:194-198 | with width `w` the given spacing, or three mean radii when the spacing is 0, the cell `c` of `x` brackets it: `c·w <= x < (c+1)·w` when `x >= 0`, `(c-1)·w < x <= c·w` when `x < 0` |
| ParticleSystem.Particles.HashPos | PhySim/PhyObjects.py:205-208 | the bucket of a position is in `[0, 2N)` |
| ParticleSystem.Particles.BucketsAt | PhySim/PhyObjects.py:205-208 | the bucket of each of `N` positions lies in `[0, 2N)` and is `hashPos` of that position |
| ParticleSystem.Particles.CountBuckets | PhySim/PhyObjects.py:216-218 | the first pass leaves in each slot the number of particles hashed to that bucket |
| ParticleSystem.Particles.PlaceEntries | PhySim/PhyObjects.py:227-231 | the placement pass completes the counting-sort layout |
| ParticleSystem.Particles.CountingSortIndex | PhySim/PhyObjects.py:210-231 | the three passes build, in fresh arrays, the layout of the current buckets |
| ParticleSystem.Particles.Hash | PhySim/PhyObjects.py:210-234 | afterwards the snapshot is the current positions, the buckets are theirs, and the index is the layout of those buckets |
| ParticleSystem.CollectEntry | PhySim/PhyObjects.py:251-253 | an entry of a bucket slice is appended exactly when it is not listed yet |
| ParticleSystem.Particles.CollectBucketOf | PhySim/PhyObjects.py:247-253 | the innermost loop of `query` adds bucket `h` to the buckets gathered |
| ParticleSystem.Particles.CollectRow | PhySim/PhyObjects.py:245-253 | the middle loop adds the buckets of one column of cells |
| ParticleSystem.Particles.CollectRect | PhySim/PhyObjects.py:244-253 | the outer loop gathers the buckets of the whole cell rectangle |
| ParticleSystem.Particles.Query | PhySim/PhyObjects.py:236-255 | `size <= N`; `ids[:size]` are distinct indices in `[0, N)`; `ids[size:]` stay -1; `ids[:size]` is exactly the particles filed under the buckets of the walked cells |
| ParticleSystem.Particles.NearbyInQueryBuckets | PhySim/PhyObjects.py:238-253 | a particle whose position at `Hash` time lies within `maxDist` on both axes is in a walked bucket |
| ParticleSystem.Particles.AnswersIncludeNearby | PhySim/PhyObjects.py:236-255 | query soundness: such a particle is in the answer |
| Pairs.ResolvePair | PhySim/PhyObjects.py:264 | one `particle_collision` changes only the two particles of the pair, and never their material |
| Pairs.Resolve | PhySim/PhyObjects.py:257-265 | replaying a log of pairs keeps the number of particles and their material |
| Pairs.ResolveExtend | PhySim/PhyObjects.py:264-265 | resolving one more pair extends the replayed state by that pair's collision |
| Pairs.PairsValidExtend | PhySim/PhyObjects.py:263-265 | logging a pair not yet logged in either orientation keeps the log free of repeats |
| Pairs.ResolveApart | PhySim/PhyObjects.py:111-112 | when no two particles overlap, any log of pairs changes nothing |
| Pairs.NewPairsStep | PhySim/PhyObjects.py:261-265 | one more partner walked logs `(i, j)` exactly when `{i, j}` is not logged yet and `j != i` |
| Pairs.NewPairsShape | PhySim/PhyObjects.py:261-265 | every pair a caller logs has that caller first and a partner from its query, never itself |
| Pairs.NewPairsCover | PhySim/PhyObjects.py:261-265 | after the walk, the caller is paired, in one orientation or the other, with every partner its query found |
| Pairs.NewPairsValid | PhySim/PhyObjects.py:261-265 | the walk never logs a pair twice or a particle with itself |
| Pairs.RowPairsHas | PhySim/PhyObjects.py:355-358 | the inner naive loop for caller `i` visits exactly the pairs `(i, k)` with `i < k`, by increasing `k` |
| Pairs.PairsBeforeHas | PhySim/PhyObjects.py:354-359 | the first `i` rows visit exactly the pairs whose caller is below `i` and below its partner, without repeats |
| Pairs.AllPairsExactlyOnce | PhySim/PhyObjects.py:354-359 | the naive pass resolves every unordered pair exactly once, with the lower index as caller |
| ParticleSystem.Particles.CollidePair | PhySim/PhyObjects.py:264 | `self[i].particle_collision(self[j])` makes the particles `ResolvePair(old, i, j)` |
| ParticleSystem.Particles.CollideIfNew | PhySim/PhyObjects.py:262-265 | the pair is resolved and logged exactly when `{i, j}` is not in `checked` and `j != i` |
| ParticleSystem.Particles.CollideListed | PhySim/PhyObjects.py:261-265 | the caller's walk over its query result logs `NewPairs` and leaves the particles at the replayed log |
| ParticleSystem.Particles.CallerTurn | PhySim/PhyObjects.py:259-265 | caller `i` records its current position as its query point and the log length as its turn; the bookkeeping, turn order and coverage within each turn included, grows by that caller |
| ParticleSystem.Particles.CallerQuery | PhySim/PhyObjects.py:260 | the query result is `size` indices in `[0, N)`, and the pairs the caller will log from it keep the bookkeeping |
| ParticleSystem.Particles.CollideCaller | PhySim/PhyObjects.py:259-265 | one caller queries at its current position with reach `2·radius` and resolves what it finds; the bookkeeping grows by that caller |
| ParticleSystem.Particles.RecordedStep | PhySim/PhyObjects.py:259-265 | a caller's turn keeps the log valid and records that it paired with all its query found, and only with that |
| ParticleSystem.PairInItsRun | PhySim/PhyObjects.py:258-265 | each logged pair lies inside the run of the log its caller's turn produced |
| ParticleSystem.TurnsAscend | PhySim/PhyObjects.py:258-265 | callers take their turns in index order: turns never decrease and the first starts the log |
| ParticleSystem.InTurnStep | PhySim/PhyObjects.py:258-265 | the next caller's pairs, appended where the log stands, keep the runs in caller order |
| ParticleSystem.Particles.ProbedStep | PhySim/PhyObjects.py:260 | where earlier callers stood when they queried is unaffected by later pairs |
| ParticleSystem.Particles.CoveredStep | PhySim/PhyObjects.py:261-265 | the new caller is paired with every particle in the buckets its query walked |
| ParticleSystem.Particles.CoveredInTurnStep | PhySim/PhyObjects.py:259-265 | once the new caller is paired with all its query found, every caller so far is covered within the log as it stood at the end of its own turn |
| ParticleSystem.Particles.OnlyQueriedStep | PhySim/PhyObjects.py:261-265 | every pair the new caller logs was found by its own query |
| ParticleSystem.Particles.Collision | PhySim/PhyObjects.py:257-265 | the log never pairs a particle with itself or any pair twice; callers take their turns in index order and log only their own pairs; each caller is paired, by the end of its own turn, with every particle filed under the buckets its query walked from where it stood then, and with no other; the particles end at the log replayed in order |
| Simulations.WallsPass | PhySim/PhyObjects.py:365-371 | walls never change a particle's mass, radius, charge or acceleration |
| Simulations.WallsPassAppend | PhySim/PhyObjects.py:365-371 | a pass over the user walls and then the borders is one pass over both lists joined |
| Simulations.WallsPassMisses | PhySim/PhyObjects.py:365-371 | a particle touching none of the walls passes through unchanged |
| Simulations.WallsDefinedPrefix | PhySim/PhyObjects.py:366-367 | if a particle can be taken through a list of walls, it can be taken through each prefix |
| Simulations.CollideWalls | PhySim/PhyObjects.py:366-367 | a particle taken through a list of walls in order ends at `WallsPass` |
| Simulations.InsideWindowUntouched | PhySim/PhyObjects.py:331-339 | a particle at least half a border's thickness inside every edge is untouched by the borders, whichever are enabled |
| Simulations.CrossingEdgeTouches | PhySim/PhyObjects.py:331-339 | a particle reaching into an edge's band of the window touches that edge's border |
| Simulations.Borders | PhySim/PhyObjects.py:331-339 | at most four borders; a wall is a border exactly when it is the wall of an enabled edge, 10 thick, centred on that edge and as long as it; the top border comes first and the right border last |
| Simulations.Simulation.constructor | PhySim/PhyObjects.py:305-339 | the particles, walls, window size, FPS and time resolution are kept, with the source's defaults; `particles` is accepted and unused; the borders are those of the enabled edges |
| Simulations.AdvanceAllKeepsMasses | PhySim/PhyObjects.py:415-416 | the update loop keeps every mass, so pair collisions stay defined |
| Simulations.Simulation.UpdateAll | PhySim/PhyObjects.py:415-416 | every particle advances by `dt` |
| Simulations.Simulation.NaiveVisit | PhySim/PhyObjects.py:356-358 | a visit resolves `(i, j)` exactly when `j` is neither `i` nor an earlier caller, i.e. when `i < j` |
| Simulations.Simulation.NaiveRow | PhySim/PhyObjects.py:355-359 | the inner loop for caller `i` resolves the pairs `(i, k)`, `k > i`, in order |
| Simulations.Simulation.NaiveCaller | PhySim/PhyObjects.py:354-359 | after caller `i`'s row, `i` is among the checked callers and the log is every pair with a first index up to `i` |
| Simulations.Simulation.NaiveCollisions | PhySim/PhyObjects.py:341-359 | the pass resolves every unordered pair exactly once, lower index first, in row order, and the particles end at that log replayed |
| Simulations.Simulation.CollideAllWith | PhySim/PhyObjects.py:365-371 | one loop of `wall_collisons` takes every particle through the list of walls |
| Simulations.Simulation.WallCollisions | PhySim/PhyObjects.py:361-371 | each particle ends as one pass over the user walls followed by the borders leaves it |
| Simulations.Simulation.CollideParticles | PhySim/PhyObjects.py:418-423 | the log is valid; naive: it is every pair in row order; otherwise the index is rebuilt from the current positions and `Collision`'s bookkeeping holds; the particles end at the log replayed |
| Simulations.Simulation.Step | PhySim/PhyObjects.py:400-425 | one frame: with `dt = time_res / FPS`, the particles end as the walls and borders leave them after the collision log is replayed on the advanced particles; the log is the naive order, or the `Collision` log with the snapshot and buckets taken at the advanced positions |

## Left out

- Drawing and the host loop are not modelled. This covers pygame, `draw`, the window and font setup, the clock, the event loop, `ShowFPS` and the unbounded `while True`: `Simulation.Step` is one iteration of that loop.
- `Gas` is not modelled: it seeds a random scenario.
- The random angle drawn for coincident centres is not modelled. The unit axis is a parameter, `unitAxis`, a function of the offset alone, so within one frame every pair with coincident centres separates along the same axis, whereas the source draws a fresh angle for each such collision.
- Floating-point rounding, `sqrt`, `cos` and `sin` are not modelled. Reals stand for floats, and squared distances stand for roots.
- numpy dtype effects are not modelled. In particular, a particle created from integer lists holds integer arrays that truncate later assignments.
- `__str__`, `__iter__`, `Wall.draw`, packaging and the demo scripts are not modelled.
- Bodies.MassPoint.WallCollision: requires a non-zero centre offset on each resolved axis. There the source divides `0/abs(0)` in numpy and writes NaN into the position, which reals cannot represent.
- Bodies.MassPoint.ParticleCollision: requires `m1 + m2 != 0` for overlapping points, where the source raises `ZeroDivisionError`.
- ParticleSystem.Particles.MeanRadius: requires `N > 0`, where the source raises `ZeroDivisionError`. `intCoords` with its default spacing, `hashPos`, `Hash` over a non-empty collection and `query` also require a non-zero mean radius; a zero spacing makes the source divide by zero.
- ParticleSystem.Particles.Valid: requires the `N` particle objects to be distinct. The source accepts the same object twice, and then a pair would update one object through two names.
- ParticleSystem.Particles.Query: requires `N > 0`. The source would fail in `MeanRadius` otherwise.
- ParticleSystem.Particles.Query: states which indices `ids[:size]` holds, not their order. The source lists them bucket by bucket in the order of the cell walk, and within a bucket in slice order. So the contracts of `Collision` fix which pairs each caller logs, but not the order in which it resolves them; the final positions are stated for the log in the order it was actually taken.
- ParticleSystem.Particles.Get: the kind of key is given as a `Key` value rather than found by `isinstance` / `np.issubdtype`. Coordinate keys of a length other than two are not modelled.
- ParticleSystem.Particles.NearbyInQueryBuckets: soundness is stated for positions at `Hash` time. During `Collision`, the moved positions are not re-bucketed, so a caller moved by an earlier pair is guaranteed only the buckets around where it stands, as filed at `Hash` time.
- Simulations.Simulation.Step: with the hash index, requires every particle to be resolvable against every wall after *any* valid log of pair collisions, not only the log this frame produces, because which pairs `Collision` resolves is known only once the index is built. The naive pass requires this only after its own log, every pair in row order.
- Simulations.Simulation.WallCollisions: requires every particle to be resolvable against every wall and border, as `wall_collision` does for each one.
- The `checked` set of `naive_particles_collisions` is a `set<int>`, as in the source. The log of resolved pairs is ghost, so it has no counterpart in the source.
