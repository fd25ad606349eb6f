# Laser and lightning pools

`index.js` draws a three.js scene in which red lasers fly through a cube
and white lightning bolts flash above it. Each animation frame updates two
self-replenishing pools of entities:

- **Lasers.** Each laser has a position and a velocity. Every frame moves a
  laser by its velocity. A laser leaves the scene and the pool once some
  coordinate exceeds 10 in absolute value. If fewer than 20 lasers are left,
  the frame adds exactly one new laser. The new laser starts inside the cube.
- **Lightning bolts.** Each bolt has an eleven-point path and a birth time.
  A bolt leaves the scene and the pool once it is older than 200 ms. If
  fewer than 5 bolts are left, the frame adds one bolt with probability
  0.05. A bolt's path starts at height 5 and takes ten random steps that
  never go up.

Both pools remove entities with `splice(index, 1)` inside `forEach` on the
same array. JavaScript then skips the element right after a removed one:
that element moves onto the index just visited. For lasers, the skipped
laser is not advanced and not checked for removal in that frame. For
bolts, the skipped bolt is not checked for expiry. The model keeps this
behaviour.

The intended behaviour is that removal during iteration never skips an
entry, and that every remaining bolt is at most 200 ms old. The code does
not meet either goal. The model follows the code, and two lemmas show
where it falls short: `Lasers.NeighbourOfRemovedIsSkipped` and
`Lightnings.ExpiredBoltMaySurvive` (see "## Findings"). The guarantees that
do hold are proved:

- a removed entity did meet the removal condition;
- an entity that does not meet it is never removed;
- survivors keep their order and are either updated or untouched;
- both populations stay bounded.

## Files

- `geometry.dfy`: vectors, `Vector3.add`, and the bounds condition of the cube.
- `splice.dfy`: the generic model of `forEach` with `splice`. It has three parts:
  - the fold `Walk`, which defines what a pass does;
  - the per-index reference `Visited`/`Dropped`/`Fate`/`Indices`;
  - the index loop `ForEachSplice`, which is proved equal to `Walk`.

  It also tracks entity identities through a pass (`Keys`).
- `lasers.dfy`: the laser pool as functions on values (`Step`), with its properties.
- `lightnings.dfy`: the bolt path (`Path`, `Trace`), the bolt pool (`Step`) and its properties.
- `simulation.dfy`: the class `Pools`. It holds the two arrays of `main()`, the id counter, and a ghost `scene`. Its methods mirror `createLaser`, `updateLasers`, `createLightning`, `updateLightnings` and the pool part of `render`. `UpdateLasers`, `UpdateLightnings` and `Frame` are proved against `Lasers.Step` / `Lightnings.Step`; `CreateLaser` and `CreateLightning` against `Lasers.Spawned` / `Lightnings.Spawned`.

Several members are plain definitions of single lines of index.js:
- `Geometry.Add` and `Lasers.Advance` define line 131.
- `Lasers.Spawns` defines line 139.
- `Lightnings.Expired` defines line 180.
- `Lightnings.Keep` is the callback of lines 179-184, which leaves a bolt as it is.
- `Lightnings.Spawns` defines line 186.

What those lines promise is stated by the members that use them. `Lasers.SurvivorsAdvancedOrSkipped` and `Lasers.RemovedLasersEscaped` cover line 131, and `Lasers.Step` covers line 139. `Lightnings.RemovedBoltsExpired` and `Lightnings.YoungBoltsKept` cover line 180. `Lightnings.Step` covers line 186, and `Lightnings.SurvivorsUnchanged` covers the callback.

Meshes are values with an id; the id stands for the object's identity. The
ghost `scene` holds the ids of the pool meshes that are in the scene.
`Pools.Valid` says that:

- the scene holds exactly the meshes of the two pools;
- no id is repeated;
- every id was handed out by the counter.

Every method preserves `Pools.Valid`.

`Math.random()` and `Date.now()` become parameters:

- `LaserDraw` holds one `createLaser` call's draws.
- `BoltDraw` holds one `createLightning` call's clock reading and path draws.
- `now` is the clock reading of `updateLightnings`.
- `chance` is its spawn draw.

## Model

| member | source | states |
|---|---|---|
| Splice.Walk | index.js:130-137 | after the forEach pass over the first n elements, as many elements are left in the array or spliced out as there were originals; WalkKept, WalkRemoved and KeysCover say which ones |
| Splice.IndicesSound | index.js:130-137 | every index listed as kept (removed) is one the pass keeps (splices out) |
| Splice.IndicesComplete | index.js:130-137 | every index the pass keeps (splices out) is listed |
| Splice.IndicesIncrease | index.js:130-137 | the listed indices are in increasing order |
| Splice.WalkSkipsAfterDrop | index.js:130-137 | the pass skips the next element exactly when it has just spliced one out |
| Splice.WalkKept | index.js:130-137 | the array after the pass is the kept originals in their original order, each updated by the callback if it was visited and untouched if skipped |
| Splice.WalkRemoved | index.js:130-137 | the spliced-out elements are the dropped originals in order, each as the callback left it |
| Splice.KeysAppend | index.js:125-126 | pushing a new mesh adds its id to the pool's ids and keeps ids distinct when the id is new |
| Splice.KeysDistinct | index.js:130-137 | a pass never duplicates an entity |
| Splice.KeysDisjoint | index.js:130-137 | no entity is both kept and spliced out |
| Splice.KeysCover | index.js:130-137 | every entity ends up kept or spliced out, and the pass invents none |
| Splice.WalkKeys | index.js:130-137 | distinct ids stay distinct, kept and removed ids are disjoint, and together they are the original ids |
| Splice.Compact | index.js:130-137 | the pass as meant (every element handed to the callback, marked ones taken out afterwards): every element is kept or removed, each kept one is a stepped original not marked for removal, each removed one is a stepped original marked for removal, every stepped original not marked is kept, and every marked one is removed |
| Splice.ForEachSplice | index.js:130-137 | the index loop (k up to the initial length, skipping k beyond the current length, splice(k, 1) on removal) leaves exactly the kept elements of Walk and splices out exactly its removed ones, in order |
| Geometry.Abs | index.js:133 | Math.abs is non-negative and equals its argument or its negation |
| Geometry.OutOfBounds | index.js:133 | some coordinate has absolute value above 10 exactly when the point lies outside the closed cube [-10, 10]^3 |
| Lasers.Start | index.js:114-116 | a new laser's start coordinates lie in [-10, 10), so it starts inside the cube |
| Lasers.Spawned | index.js:108-127 | createLaser's laser has the new id and the drawn velocity, and is not out of bounds |
| Lasers.Escaped | index.js:133 | the removal test of line 133 holds exactly when some coordinate of the advanced position is below -10 or above 10 |
| Lasers.Sweep | index.js:130-137 | the forEach pass of updateLasers yields as many kept plus removed lasers as the pool held, and the ids of the kept and removed lasers are exactly the pool's ids. `Splice.WalkKept`, `Splice.WalkRemoved` and `Splice.KeysDistinct` give which lasers and in what order |
| Lasers.Step | index.js:129-142 | updateLasers keeps at most 20 lasers if it had at most 20, adds at most one laser, and never empties the pool. The survivors come first; the new laser is appended at the end exactly when fewer than 20 survive, and otherwise the pool is just the survivors |
| Lasers.RemovedLasersEscaped | index.js:131-135 | every removed laser is an original laser advanced by its velocity, and is then out of bounds |
| Lasers.SurvivorsAdvancedOrSkipped | index.js:130-137 | survivors keep their relative order; each was either visited, advanced by exactly its velocity and in bounds, or skipped right after a removed laser and left unchanged |
| Lasers.InBoundsLaserSurvives | index.js:130-137 | a laser that is in bounds after advancing is never removed |
| Lasers.NeighbourOfRemovedIsSkipped | index.js:130-137 | of two adjacent lasers that both leave the cube, the second survives the frame, not advanced, though it would have left the cube |
| Lasers.IntendedSweep | index.js:130-137 | the pass as meant: every laser is advanced, every removed one is an advanced original out of bounds, every kept one is an advanced original in bounds, every laser in bounds once advanced is kept, and every laser out of bounds once advanced is removed |
| Lasers.RunBounded | index.js:129-141 | from at most 20 lasers (the empty start), any number of frames keeps at most 20, and at least one after the first frame |
| Lightnings.Point | index.js:152-166 | with draws in [0, 1), point i of the random walk lies between height 5 - 2i and the start height 5 |
| Lightnings.Path | index.js:150-168 | the flattened path of the first n points has 3n numbers, and its i-th triple is point i of the random walk |
| Lightnings.Descends | index.js:162-166 | a later point of a bolt is never higher than an earlier one, nor above the start height 5 |
| Lightnings.Reach | index.js:152-166 | the start point lies within 5 of the axis in x and z; after i steps the bolt has moved at most i in x and z and dropped less than 2i |
| Lightnings.PathShape | index.js:150-168 | a bolt's path is 33 numbers, starts at height 5, and no point is higher than the one before |
| Lightnings.Trace | index.js:150-168 | createLightning's loop produces exactly the path Path describes: 33 numbers, starting at height 5, never rising |
| Lightnings.Spawned | index.js:147-175 | createLightning's bolt has the new id, the birth time of its clock reading, and an 11-point path starting at height 5 that never rises |
| Lightnings.Sweep | index.js:179-184 | the forEach pass of updateLightnings yields as many kept plus removed bolts as the pool held, and the ids of the kept and removed bolts are exactly the pool's ids. `Splice.WalkKept`, `Splice.WalkRemoved` and `Splice.KeysDistinct` give which bolts and in what order |
| Lightnings.Step | index.js:177-189 | updateLightnings keeps at most 5 bolts if it had at most 5 and adds at most one bolt. The survivors come first; the new bolt is appended exactly when fewer than 5 survive and the draw is below 0.05, and otherwise the pool is just the survivors |
| Lightnings.RemovedBoltsExpired | index.js:180-183 | every removed bolt was in the pool and older than 200 ms, so a bolt born at T is never removed at T + 200 or earlier |
| Lightnings.YoungBoltsKept | index.js:179-184 | a bolt no older than 200 ms is never removed |
| Lightnings.SurvivorsUnchanged | index.js:179-184 | survivors are the pool's bolts, unchanged and in their original order; an expired survivor comes right after a removed bolt |
| Lightnings.ExpiredBoltMaySurvive | index.js:179-184 | two expired bolts side by side: the first is removed, the second survives, though it is older than 200 ms |
| Lightnings.IntendedSweep | index.js:179-184 | the pass as meant: every removed bolt is an original older than 200 ms, every kept bolt is an original no older than 200 ms, every bolt no older than 200 ms is kept, and every older one is removed |
| Lightnings.RunBounded | index.js:177-189 | from at most 5 bolts (the empty start), any number of frames keeps at most 5 |
| Simulation.Pools.constructor | index.js:106-144 | the laser array (line 106) and the bolt array (line 144) start empty, and the scene holds no pool mesh |
| Simulation.Pools.CreateLaser | index.js:108-127 | the new laser is appended to the pool and added to the scene, and the pools stay consistent with the scene |
| Simulation.Pools.UpdateLasers | index.js:129-142 | the pool becomes Lasers.Step of the old pool. Removed lasers leave the scene, a new laser enters it exactly when one is appended, and the bound of 20 is kept |
| Simulation.Pools.CreateLightning | index.js:147-175 | the traced bolt is appended to the pool and added to the scene |
| Simulation.Pools.UpdateLightnings | index.js:177-189 | the pool becomes Lightnings.Step of the old pool. Expired removed bolts leave the scene, a new bolt enters it exactly when one is appended, and the bound of 5 is kept |
| Simulation.Pools.Frame | index.js:201-202 | one frame updates the lasers, then the bolts, keeping both bounds and the scene consistent; the id counter advances by one per mesh made |

## Findings

| source | as written | input that shows it | evidently intended | confidence | as-written member | corrected member |
|---|---|---|---|---|---|---|
| index.js:130-137 | `splice(index, 1)` inside `forEach` shifts the next laser onto the index just visited, so it is neither advanced nor checked that frame | two adjacent lasers at (10, 0, 0) with velocity (0.5, 0, 0), the speed createLaser gives every laser: the first is removed, the second stays where it was although one step takes it out of the cube | every laser advances each frame, and every laser out of bounds after advancing is removed | not executed | Lasers.NeighbourOfRemovedIsSkipped | Lasers.IntendedSweep |
| index.js:179-184 | the same shift lets the bolt after a removed one escape the age check | two bolts born at 0, checked at 300: the first is removed, the second stays although it is 300 ms old | no bolt older than 200 ms is left after a frame | not executed | Lightnings.ExpiredBoltMaySurvive | Lightnings.IntendedSweep |

Both corrected members are built on `Splice.Compact`, a pass that calls
the callback on every element and takes the marked ones out afterwards.
`Pools` keeps the code's behaviour, since that is what the program does.

## Left out

- Scene, camera, lights, controls, geometry and material construction: these are three.js setup with no bookkeeping. The ghost `scene` stands in for the scene's set of pool meshes only.
- Texture, MTL/OBJ and skybox loading: asynchronous I/O through library loaders.
- `renderer.render` and the `requestAnimationFrame` loop: host scheduling and drawing. `Pools.Frame` models only the two pool updates of `render`.
- The cube rotation in `render`: floating-point time scaling with no state.
- Lasers.Spawned: the velocity is taken as an input. Normalising the random direction and scaling it to speed 0.5 is floating-point square-root arithmetic and is left out.
- Lasers.Spawned: the laser mesh's cylinder shape, colour and `rotation.z` are left out.
- Numbers are exact reals, not IEEE doubles. Bolt positions are not rounded to the Float32 buffer the geometry stores them in.
- `Math.random()` and `Date.now()` are parameters. A draw is assumed to lie in [0, 1). The clock reading of `createLightning` is independent of the one `updateLightnings` made earlier in the same frame.
- Object identity is modelled by ids handed out from a counter.
- Simulation.Pools.UpdateLasers: the splices happen on a local sequence that is written back to the field after the pass, and the scene removals are applied together after the pass. Nothing else observes the array or the scene during the pass, so the final state is the same.
- Simulation.Pools.UpdateLightnings: the same holds for the bolt pool.
