# just-wheels-bouncing in Dafny

A model of the simulation core of just-wheels-bouncing. This is a small C library that
moves round bodies on a toroidal grid of square cells and resolves their collisions.

## What is modelled

**The world** (`WorldModel.World`, a class) is the C `WORLD`, laid out field by field:
- the cell array of list heads, as an `array<int>`;
- the entity table, split into sequences: `next`, `last`, the bodies (`pos`, `vel`,
  `correct`, `mass`, `radius`) and the flags;
- the `freed` and `available` dead lists;
- the hit handler, the world flags, the offset and the capacity.

**The lists.** Each cell heads a doubly linked list whose first element stores `~cell` in
`last`. A dead list's first element stores -1 there. Two ghost fields record which slots
each list spells out:
- `lists` holds one sequence per cell, then `freed`, then `available`;
- `owner` says which list each slot is on.

`Linked()` ties the pointer fields to them (module `Links`). `Valid()` adds the entity
lifecycle: a live entity is in a cell with no REMOVED/DESTROYED flag, a removed one is on
`freed`, and a destroyed one is on `available`.

**The operations.** Operations that update the world in place are methods on it or on a
`w: World` parameter:
- `jwb_world_alloc`, `add_ent`, `remove_ent`, `destroy_ent` and the static list helpers of
  `src/world-sim.c`;
- the checked accessors of `src/world-get-set.c` (module `Accessors`);
- `jwb_world_for_each` (module `Iteration`);
- `jwb_world_step` (module `Sim`), split into:
  - the collision scan (module `Collide`), whose eight `update_*` routines are methods with
    the same loops;
  - the move pass (module `Move`).

**The specifications.** Each method is proved against a specification function, as follows.
- **Collision scan.**
  - Module `Scan` lists the calls of the collision scan as data.
  - Module `Hits` runs that list of calls on the table of bodies.
  - Module `Resolvers` states what the two library hit handlers do to the table.
  - Module `Collision` holds their one-dimensional exchange formulas, and module `Vectors`
    the rotations of `src/vect.c`.
- **Move pass.** Module `Move` says what the pass does to each slot.
- **Cells.** Module `Grid` holds `fframe` and `reposition`.
- **Errors.** `jwb_errmsg` is module `Errors`.

**The properties proved.**
- The scan examines every cell once, and every pair of adjacent torus cells exactly once.
- The scan leaves all positions where they were.
- Each handler conserves momentum, and the elastic one also conserves energy.
- A whole step keeps the live entities' total momentum, and with the elastic handler their
  total kinetic energy (module `Totals`, the property `tests/conservation.c` watches).
- The move pass moves every live entity exactly once, into the cell its new position lies
  in.
- Unlinking undoes linking.
- The lifecycle invariant survives every operation.

**Arithmetic.** Doubles are modelled as `real`. The square root of `jwb_vect_magnitude` is
a parameter `mag` with the property that `mag(v)` is non-negative and squares to
`v.x*v.x + v.y*v.y`.

## Model

| member | source | states |
|---|---|---|
| `Errors.ErrMsg` | src/error.c:4-23 | code 0 reads "No error"; the "Unknown error" message is given exactly for codes outside the five known ones, of either sign |
| `Errors.ErrMsgIgnoresSign` | src/error.c:6-8 | a code and its negation get the same message |
| `Errors.ErrMsgInjective` | src/error.c:9-22 | among known codes, two codes have the same message iff they are equal up to sign |
| `Vectors.Flip` | src/vect.c:16-20 | the flipped rotation is a unit rotation iff the original is |
| `Vectors.RotateKeepsNorm` | src/vect.c:22-27 | rotating by a unit rotation keeps the squared magnitude |
| `Vectors.RotationOf` | src/vect.c:46-51 | the rotation built from a non-zero vector and its magnitude is a unit rotation |
| `Vectors.RotateFlipUndoes` | src/vect.c:16-27 | rotating by a unit rotation and then by its flip returns the vector |
| `Vectors.RotateWeightedSum` | src/vect.c:22-27 | rotation commutes with mass-weighted sums (linearity) |
| `Vectors.FlippedRotationAligns` | src/world-util.c:9-10 | the flipped rotation of the line of centres turns it onto the x axis with its length kept and no y part |
| `Grid.Trunc` | src/world-sim.c:68-69 | conversion to an integer truncates toward zero: for a non-negative value the result is the non-negative integer within one below it, for a negative value the non-positive integer within one above it |
| `Grid.FFrame` | src/world-sim.c:7-14 | fframe lands in [0, lim) |
| `Grid.FFrameIsShift` | src/world-sim.c:7-14 | fframe moves a value only by whole multiples of lim |
| `Grid.FFrameFixes` | src/world-sim.c:7-14 | a value already in [0, lim) is unchanged |
| `Grid.FFramePeriodic` | src/world-sim.c:7-14 | values a whole number of periods apart frame to the same value |
| `Grid.Wrap` | src/world-sim.c:65-67 | the wrapped position lies inside the world extent on both axes |
| `Grid.CellIndexOf` | src/world-sim.c:68-71 | the returned index is a valid cell index, below width*height |
| `Grid.CoordInRange` | src/world-sim.c:68-69 | a coordinate in [0, n*cellSize) falls in a cell below n whose bounds contain it |
| `Grid.RowMajorInjective` | src/world-sim.c:71 | distinct in-grid cells get distinct row-major indices |
| `Grid.Reposition` | src/world-sim.c:61-72 | the written-back position lies inside the world and the returned index names a cell of the grid |
| `Grid.RepositionFixes` | src/world-sim.c:61-72 | a position already inside the world is written back unchanged |
| `Collision.HitAxis` | src/world-util.c:4-12 | no axis iff the distance is 0; otherwise a unit rotation that turns `rel` into (dist, 0) |
| `Collision.ElasticConserves` | src/world-util.c:52-54 | the 1-D elastic exchange conserves momentum and kinetic energy and reverses the relative velocity |
| `Collision.LegacyAgrees` | src/world.c:228-231 | the older resolver's second velocity equals `bounced2 = vel1.x - vel2.x + bounced1` |
| `Collision.InelasticConserves` | src/world-util.c:84 | the inelastic exchange conserves momentum and leaves no relative velocity |
| `Collision.InelasticLosesEnergy` | src/world-util.c:84 | with positive masses the inelastic exchange never gains kinetic energy |
| `Collision.ExchangeInFrame` | src/world-util.c:50-59 | in the rotated frame only the along-axis component changes; the perpendicular one is kept |
| `Collision.PlanarMomentum` | src/world-util.c:50-59 | an along-axis exchange that conserves momentum conserves it in the plane |
| `Collision.PlanarEnergy` | src/world-util.c:50-59 | an along-axis exchange that conserves energy conserves it in the plane |
| `Collision.ElasticVelsConserve` | src/world-util.c:46-61 | the planar elastic velocities conserve momentum and energy and change only along the axis |
| `Collision.InelasticVelsConserve` | src/world-util.c:78-91 | the planar inelastic velocities conserve momentum, share one along-axis velocity and keep the perpendicular parts |
| `Collision.CorrectionSplit` | src/world-util.c:24-26 | cor2 - cor1 is the overlap, and m1*cor1 + m2*cor2 = 0 |
| `Collision.CorrectionVectors` | src/world-util.c:27-30 | the correction vectors along `rel` leave the mass-weighted centre in place |
| `Collision.FrictionSlows` | src/world-util.c:99-108 | friction f >= 0 stops a body of speed <= f; otherwise it keeps the direction and lowers the speed by f |
| `Resolvers.PositiveDivisible` | src/world-util.c:24-25 | positive masses and an overlap make every division of the handlers defined |
| `Resolvers.NoOverlap` | src/world-util.c:14-31 | the two corrections are added to both bodies' `correct`; nothing else changes |
| `Resolvers.NoOverlapBalances` | src/world-util.c:14-31 | the increments point along `rel`, separate the bodies by the overlap, and balance by mass; velocities and other slots are kept |
| `Resolvers.HandleFrame` | src/world-util.c:33-93 | a handler changes only the velocities and corrections of the two bodies |
| `Resolvers.CoincidentCentresIgnored` | src/world-util.c:43-45 | at distance 0 neither handler changes anything |
| `Resolvers.ElasticCollision` | src/world-util.c:33-63 | the table becomes the elastic specification; at distance 0 it is unchanged |
| `Resolvers.ElasticOnConserves` | src/world-util.c:33-63 | an elastic hit conserves total momentum and energy, keeps the cross-axis parts and reverses the relative along-axis velocity |
| `Resolvers.InelasticCollision` | src/world-util.c:65-93 | the table becomes the inelastic specification; at distance 0 it is unchanged |
| `Resolvers.InelasticOnConserves` | src/world-util.c:65-93 | an inelastic hit conserves momentum, equalises the along-axis velocities and keeps the cross-axis parts |
| `Totals.HandleConserves` | src/world-util.c:33-93 | either handler on two distinct slots keeps the table's total momentum; the elastic one keeps its total kinetic energy |
| `Totals.CheckHitConserves` | src/world-sim.c:105-114 | when `mag` computes magnitudes, check_hit on any pair, including a slot against itself (whose distance is then 0), keeps total momentum, and total kinetic energy under the elastic handler |
| `Totals.HitAllConserves` | src/world-sim.c:116-146 | when `mag` computes magnitudes, check_hit over any list of pairs keeps the same totals |
| `Totals.TranslateMotion` | src/world-sim.c:188-198 | cell_translate changes no velocity and no mass |
| `Totals.RunConserves` | tests/conservation.c:66-88 | when `mag` computes magnitudes, any run of scan calls keeps total momentum, and total kinetic energy under the elastic handler |
| `Resolvers.ApplyFriction` | src/world-util.c:95-110 | the velocity is scaled by (speed - f)/speed with speed = mag(vel), or zeroed; with f >= 0 it is slowed by f |
| `Resolvers.ApplyFrictionAll` | src/world-util.c:112-118 | every live entity gets friction applied; removed and destroyed slots keep their bodies; the world stays valid |
| `Links.HeadIsMarked` | src/world-sim.c:90-99 | in a linked table, the first element of a list, and only it, has a negative `last`, equal to the list's mark |
| `Links.UnlinkRemoves` | src/world-sim.c:37-52 | unlinking `e` removes it from its list and leaves it on no list; the rest stays linked |
| `Links.UnlinkWrites` | src/world-sim.c:74-88 | the same for the fields a world writes: heads are the cells, then `freed` and `available` |
| `Links.UnlinkFrame` | src/world-sim.c:74-88 | the other lists keep their links |
| `Links.PushPrepends` | src/world-sim.c:90-99 | pushing a slot on no list makes it the first element of the list, the rest following |
| `Links.PushWrites` | src/world-sim.c:90-99 | the same in terms of a world's fields |
| `Links.PushFrame` | src/world-sim.c:90-99 | the other lists keep their links when a slot is pushed |
| `Links.UnlinkUndoesPush` | src/world-sim.c:74-99 | unlink_living right after link_living restores every head and every other slot's fields (`~(~c) == c`) |
| `Links.GrowKeepsLinked` | src/world-sim.c:16-35 | a slot appended to the table starts on no list, and the lists keep their links |
| `Links.EmptyLinked` | src/world-alloc.c:15-25 | an empty table whose heads are all -1 spells out empty lists |
| `Links.LinkDeadAsWrittenDropsHead` | src/world-sim.c:37-59 | for any correctly linked dead list, pushing `e` with link_dead as written and then unlinking the old first element makes that element's successor the head, so `e` is lost; the corrected push keeps `e` as the head |
| `Links.LinkDeadAsWrittenLosesEntry` | src/world-sim.c:391-419 | on a one-cell world, push 0 then 1 onto `freed` (remove 0, remove 1) and unlink 0 (destroy 0). As written, `freed` is left empty and entity 1 is lost; with the corrected push it holds [1] |
| `WorldModel.DestroyedFits` | src/world-sim.c:417 | OR-ing DESTROYED into a live or removed entity's flags gives flags that fit the available list |
| `WorldModel.World.Init` | src/world-alloc.c:15-43 | an allocated buffer is fresh with every head -1, while a given one is kept; no slots; both dead lists -1; elastic handler; HAS_WALLS; cell size 10; valid when width, height >= 1 and every head is -1 |
| `WorldModel.World.Alloc` | src/world-alloc.c:6-52 | -NO_MEMORY iff an allocation fails, with no world; otherwise 0 and a fresh world with the defaults |
| `WorldModel.World.Confirm` | src/world-sim.c:421-435 | the result is 0, -REMOVED_ENTITY or -DESTROYED_ENTITY |
| `WorldModel.World.ConfirmReportsList` | src/world-sim.c:421-435 | in a valid world, 0 iff the entity is in a cell, REMOVED iff it is on `freed`, DESTROYED iff it is on `available` or was never handed out |
| `WorldModel.World.LiveAreInCells` | src/world-sim.c:421-435 | a live entity is on exactly one list, its cell's |
| `WorldModel.World.AllocNewEnt` | src/world-sim.c:16-35 | below capacity, one slot is appended; at capacity the capacity becomes cap*3/2+1 if realloc succeeds; otherwise -NO_MEMORY with nothing changed |
| `WorldModel.World.UnlinkDead` | src/world-sim.c:37-52 | `e` is deleted from its dead list and is on no list; the world stays linked |
| `WorldModel.World.LinkDead` | src/world-sim.c:54-59 | (corrected) `e` becomes the first element of the dead list; the world stays linked |
| `WorldModel.World.UnlinkLiving` | src/world-sim.c:74-88 | `e` is deleted from its cell's list, the cell found through `~last`; the world stays linked |
| `WorldModel.World.LinkLiving` | src/world-sim.c:90-99 | `e` becomes the first element of cell `c`'s list |
| `WorldModel.World.Reposition` | src/world-sim.c:61-72 | the position is wrapped into the world and the index of its cell is returned |
| `WorldModel.World.PlaceEnt` | src/world-sim.c:101-104 | the wrapped entity is listed first in the cell its position lies in |
| `WorldModel.World.TakeSlot` | src/world-sim.c:373-381 | the head of `available` is reused (and leaves that list) if there is one, otherwise a fresh slot is allocated; -NO_MEMORY only if that fails; no cell list changes |
| `WorldModel.World.Fill` | src/world-sim.c:382-387 | pos, vel, mass and radius are written, flags cleared, `correct` kept, and the slot placed |
| `WorldModel.World.AddEnt` | src/world-sim.c:366-389 | the returned handle is live, holds the wrapped position, vel, mass, radius and the slot's previous `correct`, and heads its cell's list; a reused slot is the head taken off `available`, a fresh one grows the table by one (and the capacity by half plus one when full); every other list and slot, the handler, flags and offset are unchanged; -NO_MEMORY exactly when growth fails, with no change; the world stays valid |
| `WorldModel.World.AvailableHead` | src/world-sim.c:373-375 | the head of `available` is a destroyed entity's slot and the first element of that list |
| `WorldModel.World.RemoveEnt` | src/world-sim.c:391-401 | a live entity moves from its cell to the head of `freed` and gains the REMOVED flag, every other slot's flags and every other list unchanged; otherwise confirm's error and no change (with the corrected link_dead of ## Findings) |
| `WorldModel.World.DestroyEnt` | src/world-sim.c:403-419 | a live or removed entity moves to the head of `available` and gains the DESTROYED flag, every other slot's flags and every other list unchanged; a destroyed handle is refused unchanged (with the corrected link_dead of ## Findings) |
| `WorldModel.World.Retire` | src/world-sim.c:406-418 | the accepted branch of destroy_ent: the entity ends on the head of `available` with DESTROYED added to its flags, other slots' flags unchanged (with the corrected link_dead of ## Findings) |
| `WorldModel.World.Bury` | src/world-sim.c:393-397 | unlink from a cell or `freed`, then link_dead onto the head of the other dead list; every other list and owner is unchanged (with the corrected link_dead of ## Findings) |
| `Accessors.Written` | src/world-get-set.c:63-84 | each writer changes only its own field: pos, vel or correct |
| `Accessors.Check` | src/world-get-set.c:41-48 | a missing vector is refused first; then only a destroyed handle is refused |
| `Accessors.CheckByList` | src/world-get-set.c:45-48 | the check passes iff the handle is in use and in a cell or on `freed` |
| `Accessors.ReadVect` | src/world-get-set.c:38-61 | the status is the check's result; on success the position or velocity is copied out |
| `Accessors.WriteVect` | src/world-get-set.c:38-53 | on success only `e`'s record takes the write; a refusal changes nothing; validity is kept |
| `Accessors.SetThenGet` | src/world-get-set.c:55-69 | get_pos after set_pos, and get_vel after set_vel, return the written vector |
| `Accessors.AddingWrites` | src/world-get-set.c:71-84 | translate, move_later and accelerate add: two calls equal one with the sum, and the opposite undoes |
| `Accessors.MoveLaterIsDeferredTranslate` | src/world-get-set.c:71-79 | after the next move, move_later(v) and translate(v) leave the entity in the same place and cell |
| `Accessors.GetMass` | src/world-get-set.c:86-98 | -3 for a destroyed handle, otherwise the mass |
| `Accessors.GetRadiusAsWritten` | src/world-get-set.c:86-100 | as written, the radius getter returns what the mass getter returns |
| `Accessors.GetRadius` | src/world-get-set.c:100 | (corrected) -3 for a destroyed handle, otherwise the radius |
| `Accessors.RadiusGetterReturnsMass` | src/world-get-set.c:93 | whenever mass and radius differ, the as-written getter disagrees with the corrected one |
| `Accessors.SetMass` | src/world-get-set.c:102-121 | a negative value is refused before the handle is checked; on success only the mass changes |
| `Accessors.SetRadius` | src/world-get-set.c:102-125 | a negative value or one above the cell size is refused; on success the radius is in [0, cellSize] |
| `Accessors.OnHit` | src/world-get-set.c:9-12 | the handler is replaced |
| `Accessors.SetOffset` | src/world-get-set.c:20-27 | a missing vector gives -INVALID_ARGUMENT and no change; otherwise the offset is set |
| `Accessors.GetOffset` | src/world-get-set.c:29-36 | 0 with the offset iff a destination is given |
| `Accessors.GetExtra` | src/world-get-set.c:127-140 | None iff the handle is destroyed; otherwise that slot's payload |
| `Iteration.VisibleIsLive` | src/world-for-each.c:9-11 | in a valid world the slots for_each calls are exactly the live entities |
| `Iteration.ForEach` | src/world-for-each.c:4-18 | calls in ascending order on visible slots only; the first nonzero answer stops and is returned; with 0 every visible slot was called |
| `Hits.CheckHitFrame` | src/world-sim.c:106-115 | a check changes no position, mass or radius, and no slot but its two |
| `Hits.PairsOnce` | src/world-sim.c:117-132 | update_cell checks each unordered pair of distinct entities of its list once, and never an entity with itself |
| `Hits.CrossOnce` | src/world-sim.c:134-156 | update_cells checks each entity of the first list against each of the second once |
| `Hits.TranslateMoves` | src/world-sim.c:188-198 | every body on the list moves by `disp` once; other slots are unchanged |
| `Hits.RunMoves` | src/world-sim.c:188-198 | over a run of calls, a body in a cell is displaced by that cell's net translations |
| `Hits.RunSkips` | src/world-sim.c:106-198 | a slot on no cell list comes out of any run unchanged |
| `Hits.RunFrame` | src/world-sim.c:106-198 | no run changes a mass, a radius or the slot count |
| `Hits.ScanKeepsPositions` | src/world-sim.c:200-346 | the whole scan leaves every position unchanged |
| `Scan.TopLeftChecks` | src/world-sim.c:200-213 | update_top_left checks cell (0,0) with itself and its four forward torus neighbours |
| `Scan.TopRightChecks` | src/world-sim.c:215-229 | the same for cell (W-1,0) |
| `Scan.LeftFromChecks` | src/world-sim.c:231-248 | the same for each cell (0,y), 1 <= y < H-1, in order |
| `Scan.MiddleFromChecks` | src/world-sim.c:250-262 | the same for each inner cell of rows 0..H-2, row by row |
| `Scan.RightFromChecks` | src/world-sim.c:264-282 | the same for each cell (W-1,y), 1 <= y < H-1 |
| `Scan.BottomLeftChecks` | src/world-sim.c:284-303 | the same for cell (0,H-1) |
| `Scan.BottomFromChecks` | src/world-sim.c:305-323 | the same for each cell (x,H-1), 1 <= x < W-1 |
| `Scan.BottomRightChecks` | src/world-sim.c:325-346 | the same for cell (W-1,H-1) |
| `Scan.ScheduleChecks` | src/world-sim.c:351-358 | without the translations, the eight routines make exactly the canonical checks of every cell, in visiting order |
| `Scan.OrderCount` | src/world-sim.c:351-358 | the routines visit every grid cell once and nothing outside the grid |
| `Scan.ForwardOnce` | src/world-sim.c:255-259 | of two distinct cells, one sees the other at a forward offset exactly when they are adjacent, and then only one does |
| `Scan.ScanChecksEveryCellOnce` | src/world-sim.c:351-358 | update_cell runs exactly once on every grid cell |
| `Scan.ScanPairsAdjacentCellsOnce` | src/world-sim.c:351-358 | two distinct cells are checked against each other exactly once iff they are adjacent on the torus |
| `Scan.ScanNeverPairsCellWithItself` | src/world-sim.c:351-358 | update_cells never pairs a cell with itself |
| `Scan.ScheduleUndoesTranslations` | src/world-sim.c:200-346 | every cell's temporary translations sum to zero over the scan |
| `Collide.CheckHit` | src/world-sim.c:106-115 | the table becomes CheckHitOn of the old one; masses are kept |
| `Collide.CheckWith` | src/world-sim.c:125-130 | `self` is checked against each entity of the list in order |
| `Collide.CheckPairs` | src/world-sim.c:120-131 | the list is checked pair by pair (Hits.Pairs) |
| `Collide.UpdateCell` | src/world-sim.c:117-132 | the table becomes the run of a Check call on the cell |
| `Collide.CheckCross` | src/world-sim.c:144-155 | the first list is checked against the second (Hits.Cross) |
| `Collide.UpdateCells` | src/world-sim.c:134-156 | the table becomes the run of a CheckPair call |
| `Collide.TranslateList` | src/world-sim.c:191-197 | every body on the list moves by `disp` |
| `Collide.CellTranslate` | src/world-sim.c:188-198 | the table becomes the run of a Translate call by whole world extents |
| `Collide.UpdateTopLeft` | src/world-sim.c:200-213 | the table becomes the run of Scan.TopLeft |
| `Collide.UpdateTopRight` | src/world-sim.c:215-229 | the table becomes the run of Scan.TopRight |
| `Collide.LeftRow` | src/world-sim.c:238-246 | one row of update_left runs Scan.LeftBlock and hands the wrap vector back unchanged |
| `Collide.UpdateLeft` | src/world-sim.c:231-248 | the table becomes the run of Scan.Left |
| `Collide.MiddleCell` | src/world-sim.c:255-259 | the table becomes the run of Scan.MiddleBlock |
| `Collide.MiddleRowScan` | src/world-sim.c:254-260 | the run of one row of update_middle |
| `Collide.UpdateMiddle` | src/world-sim.c:250-262 | the table becomes the run of Scan.Middle |
| `Collide.RightRow` | src/world-sim.c:272-280 | one row of update_right runs Scan.RightBlock |
| `Collide.UpdateRight` | src/world-sim.c:264-282 | the table becomes the run of Scan.Right |
| `Collide.UpdateBottomLeft` | src/world-sim.c:284-303 | the table becomes the run of Scan.BottomLeft |
| `Collide.BottomCell` | src/world-sim.c:313-321 | one column of update_bottom runs Scan.BottomBlock |
| `Collide.UpdateBottom` | src/world-sim.c:305-323 | the table becomes the run of Scan.Bottom |
| `Collide.UpdateBottomRight` | src/world-sim.c:325-346 | the table becomes the run of Scan.BottomRight |
| `Collide.CollideScan` | src/world-sim.c:351-358 | the eight routines run the whole Scan.Schedule |
| `Collide.ListedIsLive` | src/world-sim.c:351-358 | an entity on a cell list scanned by the collision pass is a live entity |
| `Collide.ScanConserves` | tests/conservation.c:66-88 | the whole scan keeps total momentum, and with the elastic handler total kinetic energy, over all slots and over the live entities |
| `Collide.Collide` | src/world-sim.c:351-358 | the table becomes the run of the schedule; masses and slot count are kept, so the world stays ready; when `mag` computes magnitudes, the live entities' total momentum is kept, and their kinetic energy under the elastic handler |
| `Move.AdvanceLands` | src/world-sim.c:171-177 | a moved body lies in the world, in the cell it is relinked into, with vel, mass and radius kept and no correction |
| `Move.MovesOnce` | src/world-sim.c:167-181 | an entity sent to a later cell is only unmarked there: it moves once per step |
| `Move.MoveOneMarked` | src/world-sim.c:167-170 | a marked entity only loses its mark |
| `Move.MoveOneFresh` | src/world-sim.c:171-181 | an unmarked entity advances by vel + correct, wraps, and is marked iff its new cell is later |
| `Move.VisitedStep` | src/world-sim.c:158-186 | visiting cell k extends the pass over cells below k to cells below k+1 |
| `Move.VisitedAll` | src/world-sim.c:359-363 | after all cells, every live entity has moved once, unmarked, into its new cell; dead slots are untouched |
| `Move.Relink` | src/world-sim.c:182-183 | the entity leaves its cell's list for the head of list `c` |
| `Move.AdvanceEnt` | src/world-sim.c:167-181 | the entity's record and flags become MoveOne of the old ones; the cell is returned |
| `Move.Turn` | src/world-sim.c:163-184 | one loop turn extends the visited prefix of the list by one entity and returns the saved successor |
| `Move.Refile` | src/world-sim.c:178-184 | an entity whose cell changed leaves the walked list; one that stays is kept |
| `Move.WalkList` | src/world-sim.c:162-185 | after the loop the table is the visit of the cell |
| `Move.MoveEnts` | src/world-sim.c:158-186 | the table becomes VisitCell of the old table for cell (x, y) |
| `Move.MoveRow` | src/world-sim.c:360-362 | move_ents on each cell of row y, left to right |
| `Move.MovePass` | src/world-sim.c:359-363 | the world stays valid; each live entity is advanced once and listed in the cell of its new position; removed and destroyed slots are untouched |
| `Sim.Step` | src/world-sim.c:348-364 | a step is the scan's run of the schedule followed by the move pass: live entities advance from what the scan left them into the cell of their new position; the world stays valid; when `mag` computes magnitudes, the entities live before the step keep their total momentum, and with the elastic handler their total kinetic energy, as tests/conservation.c:66-88 expects |

## Left out

- Doubles are modelled as `real`. Rounding, infinities and NaN are not modelled. In
  particular, `fframe`'s `fmod` cannot round a coordinate up to the world's extent.
- The magnitude `sqrt` is the parameter `mag`, constrained to return the length. The trigonometric helpers of `src/vect.c`
  (`jwb_rotation`, `jwb_rotation_angle`, `jwb_vect_angle`, `jwb_vect_normalize`) are not
  used by the core and are not modelled.
- The world's handler is one of the library's two, `Elastic` or `Inelastic`. A user-supplied C handler is arbitrary code and is not modelled.
- Collide.Collide: requires every live body to have a positive mass, and a grid of at least 3 by 3 cells. The library accepts mass 0 (`set_mass` rejects only negative values), and for a zero mass its divisions yield infinities or NaN, which `real` cannot represent. A grid under 3 by 3 makes `update_top_left` read past the grid (width 1) or repeat wrapped pairs (width 2).
- Sim.Step: inherits Collide.Collide's positive-mass and 3-by-3 requirement. Its conservation clause holds for exact reals and a `mag` that returns exact lengths; the library's doubles keep the totals only up to rounding, which `tests/conservation.c` allows for by comparing with a tolerance. The inelastic handler's loss of energy is proved per hit (`Collision.InelasticLosesEnergy`), not summed over a step.
- Hits.CheckHitOn: calls the handler only when the pair is `Resolvers.Divisible` (non-zero mass sum, second mass and summed radii). Where the library divides by zero, the model leaves the bodies unchanged; `Collide.Collide`'s positive masses make this guard always true on the pairs it checks.
- Resolvers.ApplyFriction: at speed 0 the library computes `(0 - f) / 0`. For f >= 0 that ratio is -inf or NaN, neither of which is positive, so the velocity is zeroed as in the model. For f < 0 it is +inf, and `0 * inf` leaves NaN in the velocity where the model gives zero.
- Resolvers.ApplyFrictionAll: `jwb_world_first`/`jwb_world_next` are not part of this model. The loop is taken to visit the live entities in ascending slot order, which is what their names and `jwb_world_for_each` suggest.
- Iteration.ForEach: the iterator is a function of the handle. Its effect on the world or on `data` is not modelled.
- WorldModel.World.AllocNewEnt: realloc success is the parameter `grows`. The new slot's uninitialised memory is the parameter `junk`. `JWBO_NO_ALLOC` (never grow) is the case `grows == false`.
- WorldModel.World.Alloc: malloc success is given by the booleans `cellsOk` and `entsOk`. The entity buffer's byte size, `ent_size` and the per-entity extra payload are not modelled. `jwb_world_extra_size` is left out with them; `GetExtra` names the payload by its slot. `jwb_world_destroy` (free) is not modelled. Alloc leaves `offset` uninitialised, and the model starts it at zero.
- `HAS_WALLS` is set by alloc and never read by the core. No wall behaviour is modelled.
- `src/world.c` is the older revision of `src/world-sim.c`. Its `jwb_world_set_walls`, `jwb_world_set_cell_size`, unchecked accessors and three-argument elastic resolver are not modelled, except through `Collision.LegacyAgrees`. The cell size is a constant of the world.
- The accessors `set_pos` and `translate` do not relink the entity. The model does not relink either. The entity stays on its old cell's list until the next move pass moves it.
- Handles are natural numbers. Negative handles passed by a caller are undefined behaviour in the library and are not modelled.
- Concurrency and memory layout (`GET`, `JWB_ENTITY_SIZE`) are not modelled.

## Findings

| source | as written | input that shows it | evidently intended | confidence | as-written member | corrected member |
|---|---|---|---|---|---|---|
| src/world-sim.c:54-59 | `link_dead` makes `ent` the new first element, but does not point the old first element's `last` back at it. The old head keeps `last == -1`, so a later `unlink_dead` of it (lines 47-50) overwrites the list head with its successor and drops every entity in front of it. | On a 1-cell world: remove entity 0, remove entity 1 (`freed` = 1, 0), destroy entity 0. Afterwards `freed` is empty although entity 1 is still flagged REMOVED. | `link_dead` sets the old head's `last` to `ent`, as `link_living` does (lines 95-97). | not executed | `Links.LinkDeadAsWrittenDropsHead` | `WorldModel.World.LinkDead` |
| src/world-get-set.c:86-100 | The `SCALAR_GETTER` macro calls `jwb_world_get_mass_unck` whatever the name, so `jwb_world_get_radius` returns the mass. | Any entity with mass 1 and radius 2: `get_radius` returns 1. | The checked getter calls `jwb_world_get_##name##_unck`. | not executed | `Accessors.GetRadiusAsWritten` | `Accessors.GetRadius` |
