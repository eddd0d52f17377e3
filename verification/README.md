# Voxhammer: the destructible scene, proved

Voxhammer draws a 128^3 voxel grid that can be carved, shattered and rebuilt while it is on screen. This
project models the pipeline that keeps that picture truthful, and the algorithms around it, and proves
what they promise. `dafny verify dfyconfig.toml` checks everything.

The scene is a stack of four layers, each of which must agree with something simpler:

- the **voxel world** (`VoxelWorld.dfy`, over `Chunks`, `Terrain`, `Palette`, `Stamp`, `Rays`): a map of
  32^3 chunks with eviction that stands for a total function from cells to materials;
- the **renderer's grid** (`Renderer.dfy`, `Bricks.dfy`): a flat array with a coarse occupancy index that
  is edited in place;
- the **debris** (`Debris.dfy`, over `Fracture`, `Capture`, `DebrisChunk`, `Rotation`, `Overlay`,
  `LiveChunks`, `Repaint`): carved voxels that become rigid chunks and are drawn over the terrain;
- the **body pool** (`Physics.dfy`): a slot table with stable ids, tombstones and a free list.

`Scene.dfy` ties them together as one state machine whose steps are the console commands, the upload
handler and the simulation frame. Its `Run` is the statement about all of them: in any sequence of commands
each has exactly the effect that `Stepped` describes, and after it, whatever the bodies' poses and in whatever
order parallel work is done, every cell of the grid shows the terrain or a live chunk, and with no chunk left
the grid is the baked world.

Around the scene stand `SkipTrace.dfy`, `SkipLimits.dfy`, `HitLimits.dfy`, `ShadowLimits.dfy` and
`RayEntry.dfy` (the shader's ray march with and without empty-space jumps, exactly when they agree, and where
it starts), `Reprojection.dfy` (the matrix that undoes the primary rays, and whose history a pixel finds), `History.dfy`, `HistoryRuns.dfy` and `StillFrames.dfy` (when
accumulated samples may be reused, and what they are), `Denoiser.dfy` (texture states checked against a
machine that executes the recorded commands), `BlueNoise.dfy` (void-and-cluster ranking), `VoxFormat.dfy`,
`VoxPrinter.dfy` and `VoxImport.dfy` (the .vox importer against a printer), `Console.dfy` with `Decimal.dfy`
(what cvars survive a restart), and `Base64.dfy`.

## Conventions

- Classes follow the source's objects: their fields are updated in place by methods whose contracts tie
  the new state to the old one through specification functions. Loops keep the source's order; the
  cursor `next` of a loop is the cell it is about to look at, in z, y, x order.
- Floats are reals. Square roots and sines are parameters constrained by the equation they satisfy (`len`,
  `root`, `cp`, `sp`, ...).
- Rigid-body motion is the environment's choice of unit-quaternion poses; `actorsLeft` is how many more
  actors the physics library can make. The order in which parallel jobs run is arbitrary.
- 32-bit wrap-around is modelled where the source relies on it or can reach it: the base64 accumulator,
  the frame counter, integer cvars. Coordinates are unbounded integers.

## Where the code does not do what its comments or documentation say

- `SetPaletteColor` moves the free watermark past the slot it writes. Start-up pins the debris colour at the
  highest free entry of the first palette, or at 255 if there is none; if it went to 255, the world's
  palette counts as full from then on, and until a clear no stamp adds a colour (`Scenes.Session`). A stamp
  keeps its colours exactly when the new ones fit in the free slots (`Stamping.ExactIffHeadroom`).
- The pinned debris colour is said to survive clears (`game/main.cpp:860`). It does not: a clear empties the
  palette (`Scenes.Scene.Clear`).
- Toggling empty-space skipping is said to leave the image identical
  (`engine/render/Renderer.cpp:2427-2429`). Exactly when it does:
  - Traced rays find the same cell in every scene whose solid cells are crossed for more than w if and only
    if w is at least 0.0005 and the budget at least 382 steps, the longest way through the grid, or the
    budget is no more than one step (`SkipLimits.SkippingIsSafeExactly`).
  - With such a budget and thickness they report the same face and point as well in every scene whose first
    cell is entered with a gap of more than g to the other axes if and only if g is at least 0.0005
    (`HitLimits.HitsAreSameExactly`). Closer to an edge the same voxel can be
    reported with a different face (`SkipLimits.NormalsCanDiffer`).
  - Shadows are the same under the same thickness if and only if there are no turns at all, or at least 381,
    and 382 from a start next to the grid (`ShadowLimits.ShadowsAreSafeExactly`).

  Primary rays have 768 steps; bounce and shadow rays have 256, which is too few: rays of both kinds, cast
  off a face as the shader does, find different things with and without jumping
  (`SkipLimits.BounceRaysCanDisagree`, `SkipLimits.ShadowRaysCanDisagree`), and a corner crossed for 0.0005
  is jumped over (`SkipLimits.ThinCornerIsJumpedOver`).
- A world imported at start-up is shown in the file's palette, which the world's own does not hold; they
  become one with the first stamp or clear, and stay so (`Scenes.Scene.OnePalette`, `Scenes.Scene.Run`).
- `RaycastSolid`'s step cap cannot bite for origins inside the grid, but does for far ones
  (`Rays.CapCanBite`, `VoxelWorlds.FarTargetMissed`).
- The cap on trusted samples is 2048 and one more is blended in, so the stored value is an exact mean up to
  2049 samples and no further (`StillFrames.StillMeanExactlyTo2049`).
- With reprojection on, which is the default, the sky keeps no history: its pixels store the last sample
  alone (`StillFrames.RenderStillFrames`).
- A debris frame does not show every debris voxel: a later chunk's padded box may paint terrain over it
  (`LiveChunks.PaddingHidesVoxel`, `Debris.HiddenVoxel`). A voxel is on show exactly if no later turn
  touches its cell (`LiveChunks.FrameShows`).
- Removing a pooled body would break the free list (`Physics.RemovalKeepsPool`); nothing does so.
- Voxels are conserved by a blast exactly when all pieces fit under the live cap and can have a body
  (`Scenes.Scene.Blow`). `CarveSphere` with radius 0 removes one voxel but fracture ignores radii below 1;
  the cvars' ranges keep the radius at 1 or more.
- Unknown cvar keys survive a save and load exactly when none of them is also registered
  (`Cvars.SaveThenLoad`).
- The projection is the exact inverse of the rays only while the field-of-view terms are above the 1e-6
  guard (`Reprojection.ProjectionInvertsRays`).

## Model

| member | source | states |
|---|---|---|
| `Scenes.Scene.Run` | game/main.cpp:907-1065 | Any sequence of place, clear, break, explode, simulation, drawing and switching commands leaves a trace of snapshots - world, colours, GPU grid, debris, bodies, frames, switches - in which every command has exactly its effect on the one before; every layer stays in order: valid world, exact brick index, live chunks owning exactly the acquired bodies, none older than twelve seconds, every GPU cell showing the terrain or a live chunk; slots are never renumbered; whenever no chunk is left alive the GPU grid is the baked world; once the renderer's palette is the world's it stays so; and until a clear no palette colour in use changes, and a full palette not at all |
| `Scenes.Scene.Execute` | game/main.cpp:907-1065 | Each single command has exactly its effect on what there is to see of the scene, keeps the invariant of the whole scene, never renumbers a body slot and keeps equal palettes equal, and only a clear takes colours out of the palette |
| `Scenes.Scene.constructor` | game/main.cpp:814-890 | Start-up establishes the scene invariant with no debris alive, and pins the debris colour in the highest free entry of the renderer's palette (else the last one): both palettes hold it there, and the world's watermark is past it |
| `Scenes.Session` | game/main.cpp:814-1065 | Start-up and any commands, with the trace of what they did: if the last palette entry was free at start-up, or no entry was, the world's palette is full from then on, and until a clear no command brings in another colour; palettes that are equal at the start stay equal |
| `Palettes.SpareEntry` | game/main.cpp:863-868 | Finds the highest free entry of a palette, or 255 when none of 1 to 255 is free |
| `Scenes.Scene.NoDebrisShowsTerrain` | game/main.cpp:127-132 | With no live chunk the GPU grid equals the baked world, cell by cell |
| `Scenes.Scene.CellOnScreen` | game/main.cpp:907-1065 | While the renderer has the world's palette, a cell that no chunk has painted is seen in the colour of the world's voxel |
| `Scenes.StampOnScreen` | game/main.cpp:907-928 | After a placement for whose colours there is room every voxel that landed is seen in its own colour |
| `Scenes.Scene.Break` | game/main.cpp:952-1005 | A break or explosion breaks and carves exactly the ball around the first solid voxel of the ray within 256 units; a miss changes nothing and means that nothing solid within the step cap was in range - and, from inside the grid, that there is nothing solid anywhere ahead; no palette changes |
| `Scenes.Scene.Blow` | game/main.cpp:1045-1062 | Fracture followed by carving: exactly the first pieces that fit under the live cap and for which bodies can be had become chunks, and the carved box alone is put back on the grid; the solid voxels of terrain and debris together are conserved if and only if that is all pieces - or, when the ball is not broken up, unless the radius is 0 and the hit is solid |
| `Scenes.Scene.Shatter` | game/main.cpp:984-988 | Reserving the pool and then fracturing spawns as many pieces as there are, as fit under the cap, and as parked bodies and actors yet to be made allow, whichever is least; old chunks and bodies are kept |
| `Scenes.Scene.Cut` | game/main.cpp:990-1002 | Carving and uploading only the carved box keeps the scene invariant although other chunks may be overpainted |
| `Scenes.Scene.Clear` | game/main.cpp:935-948 | Clearing leaves an all-zero GPU grid, no chunk, no acquired body and an empty palette |
| `Scenes.Scene.Place` | game/main.cpp:907-934 | A file that does not parse changes nothing; one that does is stamped as near to the cursor as the whole model fits, with the clipping, colour and palette guarantees of a stamp, and the whole world is shown afterwards; a full palette stays as it is |
| `Scenes.Scene.Simulate` | game/main.cpp:1194-1205 | Whatever unit-quaternion poses the live bodies reach, the debris frame that follows culls, ages and draws exactly as it should, keeps the scene invariant and never adds a chunk |
| `Scenes.Scene.Draw` | engine/render/Renderer.cpp:1993-2305 | Rendering a frame changes nothing but the temporal history and the frame count; old samples are trusted only if the previous frame left them under the same scene key and no upload or toggle came in between |
| `Scenes.BlastConserves` | game/main.cpp:167-274 | Terrain plus debris never gains solid voxels in a blast, and loses none exactly when every piece was spawned |
| `Scenes.FitConserves` | game/main.cpp:193-196 | The conservation law in terms a caller can check: the number of pieces against the free places under the live cap and the bodies to be had |
| `Scenes.UnbrokenConserves` | game/main.cpp:171-177 | A ball that fracture ignores loses a voxel exactly if its radius is 0 and its centre is solid |
| `Scenes.CarveKeeps` | game/main.cpp:990-1002 | A carve changes no cell outside its clamped box, so uploading that box alone keeps the render invariant |
| `Debris.DebrisField.Update` | game/main.cpp:279-335 | One debris frame: a chunk outlasts it exactly if its body is alive and not below -2 and it is no older than twelve seconds; what the cull erases, every surviving chunk aimed at its body with a covering box, and the exact picture after the serial uploads, for any order of the parallel builds |
| `Debris.DebrisField.Cull` | game/main.cpp:281-294 | The survivors are exactly the chunks above the kill plane and within their time, in order and aged; the boxes of the others, and only those, go back to terrain; their bodies are parked |
| `Debris.DebrisField.Aim` | game/main.cpp:297-309 | Every live chunk has a body and gets a job; its pose is the body's and its box is tight and covers every grid cell the chunk can show |
| `Debris.DebrisField.BuildRegions` | game/main.cpp:311-320 | Whatever order the jobs run in, every chunk ends with the region its own box and pose call for |
| `Debris.DebrisField.PaintAll` | game/main.cpp:322-335 | The serial uploads leave in every cell the result of all turns in list order, and each chunk remembers the box it painted |
| `Debris.DebrisField.ClearAll` | game/main.cpp:338-345 | Afterwards the grid shows terrain everywhere, no chunk is alive, and the pool keeps all its slots, parked |
| `Debris.DebrisField.SpawnFromCarve` | game/main.cpp:167-274 | The carved extents are split into the nearest number of parts of 4 times the scale cells, at least 2, from 1 to 4 on each axis and even up to one cell; exactly the first pieces, in loop order and each with its own voxels, that fit under the cap and can have a body become new chunks; with enough parked bodies no actor is made |
| `Fracture.SplitsEvenly` | game/main.cpp:178-199 | The number of parts on each axis is the nearest to the extent at the scale, from 1 to 4, and the parts are equally wide up to one cell |
| `Fracture.PartBegins` | game/main.cpp:198-200 | Part s of n begins at the last cell boundary that is not past s n-ths of the extent |
| `Debris.DebrisField.ReservePool` | game/main.cpp:157-159 | Afterwards live chunks and parked bodies together reach the live cap exactly if the pool and the actors still to be made allow it; then no spawn creates an actor |
| `Debris.SpawnedSizes` | game/main.cpp:219-231 | The solid counts of the new chunks add up to the sizes of the pieces they hold |
| `LiveChunks.LiveCount` | game/main.cpp:268-272 | There are as many live chunks as acquired slots |
| `LiveChunks.SurvivorsOutlast` | game/main.cpp:281-295 | A frame leaves the chunks whose bodies are alive and not below -2 and that are at most twelve seconds old, aged by the time step, and no others |
| `LiveChunks.LifeSpan` | game/main.cpp:281-295 | Over any number of frames a chunk is still there if and only if its body was upheld in every one and no more than twelve seconds have passed since it broke off |
| `LiveChunks.FrameDone` | game/main.cpp:322-335 | After the uploads the chunks are valid, own their bodies and account for every cell that is not terrain |
| `LiveChunks.FrameShows` | game/main.cpp:322-335 | The last chunk that touches a cell decides it; a chunk's voxel that differs from the terrain and from later samples is on show if and only if no later turn touches its cell |
| `LiveChunks.UntouchedIsTerrain` | game/main.cpp:322-335 | A cell that no turn of the frame touches shows terrain |
| `LiveChunks.PaddingHidesVoxel` | game/main.cpp:326-335 | Of two upright one-voxel chunks side by side over air, the padding of the later one's box wipes out the voxel of the earlier one |
| `Debris.HiddenVoxel` | game/main.cpp:297-335 | Builds such a frame with acquired bodies and the debris frame's own methods: afterwards the chunk has a voxel in the cell and the grid shows it empty |
| `LiveChunks.VoxelsAreReached` | game/main.cpp:422-452 | Every grid cell in which a chunk of the frame has a voxel lies in its current box |
| `Overlay.AfterAllCases` | game/main.cpp:322-335 | After all turns a touched cell holds terrain or a chunk's sample from inside its current box, an untouched one what it held before |
| `Overlay.LastTouchDecides` | game/main.cpp:322-335 | In list order the last chunk that touches a cell decides it: by painting its current box, or by clearing what is left of its previous one |
| `Overlay.ShownIffNotTouchedLater` | game/main.cpp:322-335 | A voxel that stands out is on show after all turns if and only if no later turn touches its cell |
| `Overlay.FrameKeepsConsistent` | game/main.cpp:127-132 | A frame keeps the render invariant |
| `Overlay.SingleChunkExact` | game/main.cpp:127-138 | With a single chunk the grid is exactly the terrain overlaid with that chunk |
| `Overlay.DropCleared` | game/main.cpp:287-291 | Erasing a culled chunk's box and forgetting the chunk keeps the render invariant |
| `Overlay.UploadKeeps` | game/main.cpp:990-1002 | Editing the terrain and uploading the edited box keeps the render invariant |
| `Overlay.TerrainOnly` | game/main.cpp:127-132 | The render invariant with no chunks is the same as showing the terrain |
| `Repaint.ClearBoxToTerrain` | game/main.cpp:490-501 | Exactly the cells of the box are put back to the world's voxels |
| `Repaint.ClearBoxExcept` | game/main.cpp:503-517 | The box is put back to terrain unless all of its cells lie in the box that is painted next |
| `Repaint.BuildChunkRegion` | game/main.cpp:454-488 | The upload buffer holds, for every cell of the box, the voxel whose place the pose puts over the cell's centre, or else the terrain |
| `Repaint.PaintChunk` | game/main.cpp:326-335 | One chunk's turn: current box painted, rest of the previous box cleared, every other cell untouched - also on the fast path that clears nothing |
| `Fracture.SubBoxesCover` | game/main.cpp:193-199 | The integer split covers the carve box |
| `Fracture.SubBoxesDisjoint` | game/main.cpp:193-199 | No cell lies in two parts of the split |
| `Fracture.PiecesPartitionTheCarve` | game/main.cpp:193-213 | The pieces are non-empty, pairwise disjoint and together exactly the solid voxels the carve removes |
| `Fracture.ConservedIffAllSpawned` | game/main.cpp:193-273 | Spawned voxels equal carved voxels if and only if no piece was left out |
| `Fracture.CarveCount` | engine/voxel/VoxelWorld.cpp:208-236 | The number CarveSphere returns is the number of solid cells of the ball in the grid |
| `Capture.SpheresAgree` | game/main.cpp:205-208 | The float sphere test on cell centres and the integer test of CarveSphere select the same cells |
| `Capture.TightBounds` | game/main.cpp:200-213 | The bounds of a part are the tight box of its captured cells, and are empty exactly when there are none |
| `Capture.FillChunk` | game/main.cpp:215-231 | The chunk's grid holds each captured cell at its own offset with its own material and nothing else, and counts them |
| `Capture.CapturePart` | game/main.cpp:200-245 | A part becomes a chunk exactly when it has solid voxels, and at its spawn pose the chunk shows these voxels and no others |
| `Capture.SpawnShows` | game/main.cpp:234-245 | At the spawn pose inverse sampling gives back the captured voxels cell for cell |
| `DebrisChunks.WorldAabb` | game/main.cpp:422-452 | For every unit quaternion the box contains each grid cell that inverse sampling maps into the chunk, lies in the grid, and is the least box around the padded, clamped cells of the eight rotated corners |
| `DebrisChunks.BoxIsConservative` | game/main.cpp:422-452 | A cell whose centre maps into the local box lies in the padded, clamped box |
| `DebrisChunks.SidesArePadded` | game/main.cpp:443-450 | The sides of the box lie one cell outside of the cells of the extreme corners, clamped to the grid |
| `DebrisChunks.CornersAreMoved` | game/main.cpp:426-437 | The corners are those of the chunk's local box, moved by the pose |
| `DebrisChunks.BetweenCorners` | game/main.cpp:432-441 | A rotated point of the local box lies between the extreme rotated corners on every axis |
| `DebrisChunks.IdxInjective` | game/main.cpp:386-389 | Different local voxels have different slots in the chunk's flat grid |
| `DebrisChunks.IdxFollowsLoops` | game/main.cpp:386-389 | The chunk's flat grid follows the order of nested z, y, x loops |
| `DebrisChunks.SampleIsCovering` | game/main.cpp:466-488 | For a unit quaternion exactly one local place is put over a cell's centre by the pose, and inverse sampling shows its material, or nothing when it lies outside of the chunk |
| `Overlay.OverlayIsSeen` | game/main.cpp:466-488 | So what a chunk shows in a cell, over the terrain, is settled by the place over its centre |
| `Rotation.RotationsInvert` | game/main.cpp:399-420 | For unit quaternions the rotation and its conjugate form undo each other, both ways |
| `Rotation.RotateIsMatrix` | game/main.cpp:399-409 | Rotating by a unit quaternion is applying its rotation matrix |
| `Rotation.RowsOrthonormal` | game/main.cpp:399-409 | The rotation matrix of a unit quaternion has orthonormal rows |
| `Chunks.FloorDivIsFloor` | engine/voxel/VoxelWorld.cpp:17-41 | With truncating division, quotient and remainder are still the floor ones, negative operands included |
| `Chunks.AddressRoundTrip` | engine/voxel/VoxelWorld.cpp:23-41 | Chunk and local coordinates give back the cell, for all integers |
| `Chunks.AddressUnique` | engine/voxel/VoxelWorld.cpp:23-41 | Every pair of chunk and local coordinates addresses exactly one cell |
| `Chunks.SlotInjective` | engine/voxel/VoxelWorld.h:53-61 | Two cells of a chunk never share a slot of its flat array |
| `Chunks.SlotSurjective` | engine/voxel/VoxelWorld.h:53-61 | Every slot of the flat array belongs to a cell of the chunk |
| `Chunks.SlotFollowsLoops` | engine/voxel/VoxelWorld.h:53-61 | The slots of a chunk follow the order of nested z, y, x loops |
| `Grid.FlatFollowsLoops` | engine/voxel/VoxelWorld.cpp:336-370 | So do the words of the flat grid |
| `Grid.BoxIndexFollowsLoops` | game/main.cpp:466-468 | So do the words of an upload region |
| `Terrain.ChunkBoxHolds` | engine/voxel/VoxelWorld.cpp:318-334 | A chunk's box holds exactly the cells that are addressed in it |
| `VoxelWorlds.Chunk.Set` | engine/voxel/VoxelWorld.h:59-61 | Writes exactly one slot |
| `VoxelWorlds.Chunk.Empty` | engine/voxel/VoxelWorld.h:62-65 | True exactly for an all-zero chunk |
| `VoxelWorlds.VoxelWorld.constructor` | engine/voxel/VoxelWorld.h:73-76 | A new world is empty with only palette index 0 taken |
| `VoxelWorlds.VoxelWorld.Clear` | engine/voxel/VoxelWorld.cpp:64-68 | Empties the world and resets the palette |
| `VoxelWorlds.VoxelWorld.GetVoxel` | engine/voxel/VoxelWorld.cpp:200-206 | Reads the total function the chunk map stands for; nonzero exactly on solid cells |
| `VoxelWorlds.VoxelWorld.ResidentChunks` | engine/voxel/VoxelWorld.h:95 | Counts exactly the chunks that hold a solid voxel |
| `VoxelWorlds.VoxelWorld.SetVoxel` | engine/voxel/VoxelWorld.cpp:180-198 | Changes one cell of the total function and nothing else; chunks that become all zero are dropped, so no resident chunk is empty |
| `VoxelWorlds.VoxelWorld.EvictIfEmpty` | engine/voxel/VoxelWorld.cpp:188-191 | Dropping an all-zero chunk changes no cell, and afterwards no resident chunk is empty |
| `VoxelWorlds.VoxelWorld.CarveSphere` | engine/voxel/VoxelWorld.cpp:208-236 | Removes exactly the solid cells of the ball that lie in the grid and returns their number; nothing for a negative radius |
| `Terrain.CarvedInBox` | engine/voxel/VoxelWorld.cpp:212-218 | The clamped bounding box contains everything the ball test accepts |
| `VoxelWorlds.VoxelWorld.RaycastSolid` | engine/voxel/VoxelWorld.cpp:238-316 | A hit is a solid grid cell met in range with no other solid grid cell entered before; a miss means that whatever solid is entered in range is further than the step cap; from inside the grid a miss is a true miss and the cap is never used up |
| `Rays.SearchStep` | engine/voxel/VoxelWorld.cpp:287-301 | Each advance of the march keeps that nothing solid was entered before the current time |
| `Rays.SearchLeaves` | engine/voxel/VoxelWorld.cpp:303-312 | Leaving the far side of the grid on one axis rules out every later hit |
| `Rays.SearchGivesUp` | engine/voxel/VoxelWorld.cpp:285-287 | When the step cap ends the march, everything solid still ahead is more than the cap away |
| `Rays.CapCanBite` | engine/voxel/VoxelWorld.cpp:285-287 | A concrete far origin from which a voxel within the 256 units of a break lies beyond the cap |
| `Rays.ClearForGood` | game/main.cpp:966-976 | From inside the grid a cast that is clear over 256 units is clear for good: no two points of the grid are that far apart |
| `VoxelWorlds.FarTargetMissed` | engine/voxel/VoxelWorld.cpp:285-316 | From that origin the cast misses the voxel although it is in plain view and in range |
| `VoxelWorlds.VoxelWorld.Bounds` | engine/voxel/VoxelWorld.cpp:318-334 | The least box of whole chunks around the solid cells; zero when there are none |
| `Terrain.SolidBoundsUnique` | engine/voxel/VoxelWorld.cpp:318-334 | That description determines the box |
| `VoxelWorlds.VoxelWorld.BakeFlatGrid` | engine/voxel/VoxelWorld.cpp:336-370 | For any size, slot z*dim*dim + y*dim + x holds GetVoxel(x, y, z) |
| `Palettes.ExactWhenHeld` | engine/voxel/VoxelWorld.cpp:70-94 | The index shows the colour exactly if and only if the palette holds it |
| `Palettes.DistanceIsRgb` | engine/voxel/VoxelWorld.cpp:84-93 | The distance of two colours is the sum of their squared channel differences, alpha aside |
| `VoxelWorlds.VoxelWorld.AddPaletteColor` | engine/voxel/VoxelWorld.cpp:70-94 | Earlier entries stay; the index is the colour's first slot, or in a full palette the first slot of least squared RGB distance; at most one slot is taken |
| `VoxelWorlds.VoxelWorld.SetPaletteColor` | engine/voxel/VoxelWorld.cpp:96-100 | Writes one slot and moves the watermark past it; index 0 is left alone |
| `VoxelWorlds.VoxelWorld.StampVox` | engine/voxel/VoxelWorld.cpp:102-178 | An additive overlay, translated as near to the cursor as the whole model fits: landed cells stand for their source colours, all other cells and earlier palette entries are unchanged, and all colours are kept if and only if the new ones fit in the free slots |
| `Stamping.ClippedIffTooLarge` | engine/voxel/VoxelWorld.cpp:109-121 | A cell is clipped exactly if the model is too large on an axis and the cell lies past the far side; an offset that fits is kept |
| `Stamping.PlacementIsNearest` | engine/voxel/VoxelWorld.cpp:108-120 | On each axis where the model fits it is moved no further from the cursor than needed to get all of it into the grid; where it does not, it starts at 0 |
| `Stamping.ExactIffHeadroom` | engine/voxel/VoxelWorld.cpp:139-174 | Every stamped colour is shown exactly if and only if the distinct new colours fit in the free slots |
| `Stamping.FullPaletteStays` | engine/voxel/VoxelWorld.cpp:80-178 | A stamp into a full palette adds no colour, and shows its own exactly only if the palette holds them all |
| `Bricks.BuildBrickOccupancy` | engine/render/Renderer.cpp:1049-1072 | A brick is 1 exactly if one of its 512 cells is solid |
| `Bricks.MarkBricks` | engine/render/Renderer.cpp:2332-2350 | Marking after a full upload gives the exact index |
| `Bricks.ScanBrick` | engine/render/Renderer.cpp:2387-2402 | Rescanning one brick, with its early exits, tells whether it holds a solid cell |
| `Bricks.RescanBricks` | engine/render/Renderer.cpp:2381-2404 | Rescanning only the bricks that overlap the edit restores exactness of the whole index |
| `Bricks.UntouchedBricks` | engine/render/Renderer.cpp:2379-2386 | Bricks that do not overlap the edited box cannot change |
| `Bricks.BricksOverlapped` | engine/render/Renderer.cpp:2382-2390 | The bricks rescanned after an edit are exactly those that hold a cell of the box |
| `Bricks.CopyRegion` | engine/render/Renderer.cpp:2367-2375 | Exactly the cells of the box take the region's words, row-major |
| `Rendering.Renderer.constructor` | engine/render/Renderer.cpp:1653-1680 | The grid shown is the given one if it has exactly 128^3 cells and the renderer's own scene otherwise; the brick index is exact |
| `Rendering.Renderer.SetVoxels` | engine/render/Renderer.cpp:2310-2355 | The grid is copied and zero-filled, the index is exact, and history restarts |
| `Rendering.Renderer.EditVoxels` | engine/render/Renderer.cpp:2357-2409 | The box, clamped to the grid, is overwritten and nothing else, the index stays exact, and history restarts; an empty box does nothing |
| `Grid.ClampedHolds` | engine/render/Renderer.cpp:2361-2364 | Clamping a box keeps exactly its cells in the grid |
| `SkipTrace.SkippingAgrees` | engine/render/Renderer.cpp:347-408 | With an exact index and no solid cell crossed for 0.0005 or less, tracing with and without jumps agrees on hit or miss and on the cell, with reported times at most 0.0005 apart, whenever the budget reaches the first solid cell |
| `SkipTrace.AmpleBudgetAgrees` | engine/render/Renderer.cpp:347-408 | As many steps as the longest way through the grid takes, 382, are always enough for that |
| `SkipTrace.FineFindsWithinBudget` | engine/render/Renderer.cpp:379-407 | The step-by-step trace finds the first solid cell exactly if it is fewer cells away than the budget |
| `SkipTrace.TraceAnswers` | engine/render/Renderer.cpp:379-407 | From any point of the march: a hit is the first solid cell in sight, and with no hit everything solid in sight is beyond the budget |
| `SkipTrace.SkipStepFacts` | engine/render/Renderer.cpp:387-401 | A jump always leaves the cell, goes forward on every axis, and lands in the cell the ray is in just past the brick |
| `SkipTrace.FineStepFacts` | engine/render/Renderer.cpp:403-405 | A fine step enters the next cell exactly when the ray leaves the current one |
| `SkipTrace.StepAtEdge` | engine/render/Renderer.cpp:403-405 | Where a ray leaves a cell through an edge the step goes over the last of the axes it is at, and reports the face of that one |
| `SkipTrace.JumpAtEdge` | engine/render/Renderer.cpp:387-393 | A jump that leaves a brick through an edge reports the face of the first |
| `SkipTrace.NearAndFar` | engine/render/Renderer.cpp:375-377 | The entry and exit times used by the march bound exactly the times at which the ray is in the closed cell |
| `SkipTrace.InBrick` | engine/render/Renderer.cpp:97-113 | Whatever the ray is inside before it meets the brick's face belongs to the brick |
| `SkipTrace.NoEntryNoCell` | engine/render/Renderer.cpp:352-357 | A ray rejected by the box test meets no grid cell |
| `SkipTrace.TraceVoxel` | engine/render/Renderer.cpp:347-408 | The loop computes the specified trace, and returns the voxel's material, the point at the reported time and the normal of the face entered |
| `SkipTrace.NormalIsFace` | engine/render/Renderer.cpp:366-405 | Wherever a hit is not the starting cell, its normal points against the ray and names an axis on which the ray enters the hit cell at the reported time, with jumping as without |
| `RayEntry.EntryEntersBox` | engine/render/Renderer.cpp:349-375 | A ray is rejected exactly if it misses the grid; from inside it starts 0.001 along; from outside the same past the first point of the box, with the normal of the side it comes in through, the earlier axis counting at an edge |
| `RayEntry.EntryIsDetermined` | engine/render/Renderer.cpp:349-375 | That settles the start and its normal for every ray |
| `RayEntry.FirstCellFace` | engine/render/Renderer.cpp:360-375 | From outside, the reported normal is that of the face through which the ray entered its first cell |
| `RayEntry.TracedFace` | engine/render/Renderer.cpp:347-406 | Every hit reports the face through which its cell was entered, in the first cell the side of the grid, and up only for a ray that starts in a solid cell |
| `SkipTrace.FineTimeIsNear` | engine/render/Renderer.cpp:403-405 | Stepping reports the very time at which the hit cell is entered |
| `SkipTrace.AgreeIffReached` | engine/render/Renderer.cpp:347-408 | For a ray that starts in an empty cell, and any budget: both traces agree if and only if what jumping finds is within the budget of stepping, cell by cell |
| `SkipLimits.SkippingIsSafeExactly` | engine/render/Renderer.cpp:347-408 | When primary and bounce rays find the same cell, exactly: over all scenes with an exact index, all rays of unit length, and any w below one unit, n steps agree on hit or miss and on the cell with and without jumping wherever solid cells are crossed for more than w, if and only if n is at most 1, or n is at least 382 and w at least 0.0005 |
| `HitLimits.HitsAreSameExactly` | engine/render/Renderer.cpp:347-408 | When the whole hit is the same - cell, and so material, point and face - exactly: if moreover the first cell in sight is entered through one face and has been in the slabs of the other axes for longer than g, then for any n, w up to 0.35 and g up to 0.25 (any g, where n and w are large enough) the hits are equal if and only if n is at most 1, or n is at least 382 and w and g are at least 0.0005 |
| `HitLimits.AmpleHitsAreSame` | engine/render/Renderer.cpp:347-408 | With 382 steps, no cell crossed for 0.0005 or less, and a first cell entered with a gap of 0.0005, both traces report the same hit |
| `HitLimits.PrimaryHitsAreSame` | engine/render/Renderer.cpp:541 | So a primary ray reports the same hit under these hypotheses |
| `HitLimits.HitFacts` | engine/render/Renderer.cpp:379-406 | A hit, with jumping or without, is the first cell in sight, and the reported face is one whose plane the ray meets at most 0.0005 before it enters the cell |
| `HitLimits.FrontalDecides` | engine/render/Renderer.cpp:387-405 | For a cell entered with such a gap there is only one face and time that can be reported |
| `ShadowLimits.ShadowsAreSafeExactly` | engine/render/Renderer.cpp:193-229 | When shadows are the same, exactly: over all scenes with an exact index, all rays of unit length from an empty cell, and any w below one unit, n turns agree with and without jumping wherever solid cells are crossed for more than w, if and only if n is 0, or w is at least 0.0005 and n at least 381 - 382 if the start may lie next to the grid |
| `ShadowLimits.SteppingSeesExactly` | engine/render/Renderer.cpp:193-229 | From an empty cell of the grid n turns of stepping are occluded exactly if something solid in sight is at most n cells away; jumping then sees it too |
| `ShadowLimits.ShadowsAgreeIffReached` | engine/render/Renderer.cpp:193-229 | For any ray and budget: the two shadows agree if and only if what jumping finds is near enough for stepping |
| `ShadowLimits.AmpleShadowsAgree` | engine/render/Renderer.cpp:193-229 | 381 turns are always enough from a cell of the grid, 382 from one next to it |
| `ShadowLimits.ShadowStaysAhead` | engine/render/Renderer.cpp:193-229 | Jumping or not, a shadow ray only finds cells ahead of where it is |
| `SkipLimits.PrimaryRaysAgree` | engine/render/Renderer.cpp:541 | The 768 steps of a primary ray are enough: jumping changes neither cell nor hit or miss where no cell is too thin |
| `SkipLimits.BounceRaysCanDisagree` | engine/render/Renderer.cpp:470-490 | A bounce ray cast off a face as the shader does, with 256 steps, for which only jumping finds a voxel that is crossed for half a unit and more |
| `SkipLimits.ShadowRaysCanDisagree` | engine/render/Renderer.cpp:425-431 | The same for a shadow ray: with jumping the point is in shadow, without it is not |
| `SkipLimits.ThinCornerIsJumpedOver` | engine/render/Renderer.cpp:387-401 | A bounce ray off a face, with steps to spare, that crosses a corner for exactly 0.0005 and finds it only without jumping |
| `SkipLimits.NormalsCanDiffer` | engine/render/Renderer.cpp:387-405 | A bounce ray off a face for which both traces hit the same voxel, crossed for half a unit and more, but report different faces of it |
| `SkipLimits.JumpsReach` | engine/render/Renderer.cpp:379-401 | If nothing else solid lies ahead, jumping reaches a cell in one step for each brick on the way and as many more as lie between the cell and its brick's near corner |
| `SkipLimits.ShadowJumpsReach` | engine/render/Renderer.cpp:193-229 | The same for the shadow march, in turns of a step and a jump |
| `SkipLimits.EntryFromInside` | engine/render/Renderer.cpp:353-358 | From inside the grid the march starts at the origin moved by 0.001 along the ray |
| `SkipTrace.OccludedRay` | engine/render/Renderer.cpp:193-229 | The shadow loop computes the specified march |
| `SkipTrace.SkippingKeepsShadows` | engine/render/Renderer.cpp:193-229 | Under the same hypotheses jumping changes no shadow |
| `BlueNoise.FindCluster` | engine/render/Renderer.cpp:1803-1806 | The first one of greatest energy; none exactly when there are no ones |
| `BlueNoise.FindVoid` | engine/render/Renderer.cpp:1807-1810 | The first zero of least energy; none exactly when there are no zeros |
| `BlueNoise.SwapRounds` | engine/render/Renderer.cpp:1801-1814 | Each round moves the tightest cluster into the largest void, 200 times or until there is nothing to move or nowhere to move it; the number of ones stays |
| `BlueNoise.RankCluster` | engine/render/Renderer.cpp:1821-1828 | In phase 1 a one is left for every rank left, so the early break never fires; the rank goes to the tightest cluster of what is left |
| `BlueNoise.RankVoid` | engine/render/Renderer.cpp:1831-1838 | In phase 2 a zero is left for every rank left; the rank goes to the largest void of the cells ranked so far |
| `BlueNoise.RankZeros` | engine/render/Renderer.cpp:1816-1838 | After both phases the ranks are a permutation, the lowest going to the ones, in the order of the energies |
| `BlueNoise.Bake` | engine/render/Renderer.cpp:1801-1841 | The middles of n equal steps of (0, 1) stand in exactly one cell each; a one of the swapped pattern is the tightest cluster of the cells up to its value, a zero the largest void of the cells below it |
| `BlueNoise.WindowEnergyInRange` | engine/render/Renderer.cpp:1777-1791 | The wrapped 15 x 15 Gaussian energy lies between 0 and 225, inside the searches' bounds |
| `BlueNoise.EnergyIsSum` | engine/render/Renderer.cpp:1777-1791 | Without ones there is no energy, and a further one adds the kernel of its squared distance, by the shorter way around the tile, if it is at most 7 cells away on both axes |
| `TemporalHistory.History.RenderFrame` | engine/render/Renderer.cpp:1993-2105 | A QUALITY frame with a nonzero counter reads the buffer that the immediately preceding frame wrote under the same scene key with no edit or toggle between; with reprojection a sample is blended into the history of the pixel in whose cone of rays from the previous camera its surface point lies, if and only if that pixel saw a surface within the tolerance, and stands alone otherwise; how many samples are trusted in motion; exact values stay exact means |
| `TemporalHistory.SinglePassFollows` | engine/render/Renderer.cpp:574-629 | Whose history a pixel takes up is settled by what the two frames saw |
| `TemporalHistory.History.Advance` | engine/render/Renderer.cpp:2030-2090 | When the counter advances and when it restarts, and how many old samples stay trusted: 2048 in a still frame; in motion the ceiling divided by 1 + 4 motion but at least 8, or what gives the new sample a weight from 0.15 to 0.45, where each voxel of way counts a fifth and each radian two |
| `TemporalHistory.History.SetGiDenoise` | engine/render/Renderer.cpp:2411-2420 | A real toggle restarts history, a repeated one does nothing |
| `TemporalHistory.History.SetEmptySpaceSkip` | engine/render/Renderer.cpp:2422-2432 | The same for empty-space skipping |
| `TemporalHistory.History.SetGiDebug` | engine/render/Renderer.cpp:2434-2443 | The same for the debug view |
| `TemporalHistory.History.SetGiReproject` | engine/render/Renderer.cpp:2445-2455 | The same for reprojection |
| `TemporalHistory.ExactMeansKept` | engine/render/Renderer.cpp:623-628 | One more blended sample keeps every exact value the mean of its run |
| `StillFrames.StillMeanExactlyTo2049` | engine/render/Renderer.cpp:623-628 | For a still pixel the stored value is the mean of every run of k samples if and only if k is at most 2049 |
| `StillFrames.StillSource` | engine/render/Renderer.cpp:578-621 | With a still camera a pixel finds its own history exactly without reprojection, or if a surface no closer than the least depth lies under it; the sky finds none |
| `StillFrames.RenderStillFrames` | engine/render/Renderer.cpp:574-629 | Frames rendered with a still camera and one pass store for every pixel that keeps its history the running average, so the exact mean up to 2049 frames, and for every other pixel - the sky, with reprojection on - the last sample alone |
| `HistoryRuns.RunEvents` | engine/render/Renderer.cpp:1993-2455 | In any run of frames, edits and toggles a QUALITY frame goes on exactly from the frame right before it, under the same scene key with nothing but idle toggles in between and a camera that is still or whose motion is allowed for: it reads what that frame wrote and projects into its view; otherwise it starts afresh |
| `HistoryRuns.FrameTracks` | engine/render/Renderer.cpp:2018-2094 | One more frame extends the record of a run truthfully |
| `Denoiser.Recorder.RecordFrames` | engine/render/Renderer.cpp:2123-2294 | Any sequence of single- and multi-pass frames records a command list that executes: every barrier names the true state, draws read only shader resources and write other render targets; each frame shows its own shading, filtered as often as asked within 1 to 6; all targets end as render targets |
| `Denoiser.ExpectedIsAsked` | engine/render/Renderer.cpp:2224 | The filter runs the number of times from 1 to 6 that is nearest to what was asked for |
| `Denoiser.Recorder.ToState` | engine/render/Renderer.cpp:2165-2177 | A transition is recorded only when needed and the tracker stays truthful |
| `Denoiser.Recorder.FilterPasses` | engine/render/Renderer.cpp:2224-2250 | The ping-pong leaves in the source slot the image filtered once per iteration |
| `Denoiser.Recorder.CompositePass` | engine/render/Renderer.cpp:2251-2293 | The composite reads the last filter output and the same frame's direct light and albedo |
| `Reprojection.BasisIsOrthonormal` | engine/render/Renderer.cpp:1917-1926 | The camera basis is orthonormal for every yaw and every pitch that is not vertical |
| `Reprojection.CameraAxes` | engine/render/Renderer.cpp:1917-1926 | The camera looks along its yaw, raised by its pitch; its right is level and its up leans back |
| `Reprojection.ProjectionInvertsRays` | engine/render/Renderer.cpp:1961-1983 | Projecting a point of a primary ray gives its depth as clip.w and, exactly when the scale terms are above the guard or the coordinate is 0, the ray's own screen coordinates |
| `Reprojection.StillCameraHitsSamePixel` | engine/render/Renderer.cpp:586-598 | For a still camera the point under a pixel projects to that very pixel at its own depth |
| `Reprojection.StillCameraKeepsHistory` | engine/render/Renderer.cpp:583-615 | So, the disocclusion test included, the pixel finds its own history exactly if the previous frame saw a surface there and it is further than the least depth |
| `Reprojection.ConeIsProjection` | engine/render/Renderer.cpp:583-600 | A point projects into a pixel exactly if it lies in the cone of rays through it, further away than the least depth |
| `Reprojection.RaysAreInCone` | engine/render/Renderer.cpp:583-600 | The points of a pixel's rays lie in its cone |
| `Reprojection.ReprojectByCone` | engine/render/Renderer.cpp:583-615 | History is found in a pixel if and only if the point lies in its cone and the previous frame saw a surface there within three quarters of a unit or a fiftieth of the depth |
| `Reprojection.NoCone` | engine/render/Renderer.cpp:583-615 | A point in no cone finds none |
| `Physics.PoolAccounting` | engine/physics/PhysicsWorld.cpp:314-322 | Every pooled slot is either in use or on the free list |
| `Physics.PhysicsWorld.CreatePooledActor` | engine/physics/PhysicsWorld.cpp:291-312 | A new parked slot at the end, or no change when the library cannot make an actor |
| `Physics.PhysicsWorld.ReservePool` | engine/physics/PhysicsWorld.cpp:314-326 | The pool reaches the requested size exactly if its slots and the actors to be made allow it, never shrinks and never overshoots; how many bodies can be had does not change |
| `Physics.PhysicsWorld.AcquireBox` | engine/physics/PhysicsWorld.cpp:328-362 | Hands out the slot parked last, or a new one when none is parked, upright at the given place with the greatest half extent; never one in use; every other slot is untouched |
| `Physics.TakenIsHandedOut` | engine/physics/PhysicsWorld.cpp:342-360 | Taking the last free slot hands out a body that was not in use, leaves every other slot alone and lowers the supply by one |
| `Physics.GrownIsHandedOut` | engine/physics/PhysicsWorld.cpp:337-360 | So does making an actor for an empty free list and taking that |
| `Physics.PhysicsWorld.ReleaseBox` | engine/physics/PhysicsWorld.cpp:364-381 | Parks an acquired slot far below the ground and puts it at the end of the free list; anything else is ignored |
| `Physics.PhysicsWorld.AddBox` | engine/physics/PhysicsWorld.cpp:247-275 | A body outside the pool gets a new slot and one of the actors left |
| `Physics.PhysicsWorld.RemoveBody` | engine/physics/PhysicsWorld.cpp:418-431 | Leaves a tombstone; the pool stays in order exactly if the body does not belong to it |
| `Physics.RemovalKeepsPool` | engine/physics/PhysicsWorld.cpp:418-431 | Removing a body keeps the pool in order if and only if the body is not pooled |
| `Physics.PhysicsWorld.ClearDynamics` | engine/physics/PhysicsWorld.cpp:433-461 | Pooled bodies are parked, all others destroyed; the pool keeps its slots, and the rebuilt free list is exact and in slot order |
| `Physics.PhysicsWorld.Step` | engine/physics/PhysicsWorld.cpp:160-174 | Live bodies move to arbitrary unit poses; nothing else changes |
| `Physics.PhysicsWorld.BodyPosY` | engine/physics/PhysicsWorld.cpp:234-243 | A height exactly for live bodies |
| `Physics.PhysicsWorld.EnumerateBodies` | engine/physics/PhysicsWorld.cpp:383-399 | The poses of the live bodies, each once |
| `Physics.PhysicsWorld.BodyCount` | engine/physics/PhysicsWorld.cpp:463-476 | The number of live bodies |
| `VoxPrinter.ParseInvertsPrint` | engine/voxel/VoxImport.cpp:76-184 | For every list of well-formed chunks in any order, with trailing bytes after known content and unknown chunks among them, parsing the printed file yields exactly what the list means |
| `VoxPrinter.UnknownChunksIgnored` | engine/voxel/VoxImport.cpp:171-173 | Unknown chunks have no effect, wherever they stand |
| `VoxPrinter.LastSizeWins` | engine/voxel/VoxImport.cpp:120-123 | The last SIZE chunk decides the size |
| `VoxPrinter.LastDotWins` | engine/voxel/VoxImport.cpp:124-139 | Over all voxel chunks of a file together: the last voxel at a place wins, with y and z swapped and material 0 as 1, and a place without one is left alone |
| `VoxPrinter.VoxelsAreDots` | engine/voxel/VoxImport.cpp:112-173 | The voxels of a file are those of its voxel chunks put one after the other, whatever stands in between |
| `VoxPrinter.ReadsColours` | engine/voxel/VoxImport.cpp:140-149 | Colour i of the file becomes palette entry i + 1 |
| `VoxPrinter.ColoursOfFile` | engine/voxel/VoxImport.cpp:26-184 | Every entry of the palette shows the colour the last RGBA chunk gives it, or its own grey without one, with what the last material of its number emits as alpha, or nothing |
| `VoxPrinter.AlphaOverShows` | engine/voxel/VoxImport.cpp:175-184 | Putting the emission over the alpha byte keeps the colour |
| `VoxImport.VoxScene.LoadVoxFromMemory` | engine/voxel/VoxImport.cpp:76-184 | On any bytes the importer computes the specified parse, ends, and reads nothing outside the buffer; a rejected file leaves the voxels alone |
| `VoxImport.VoxScene.WalkChunks` | engine/voxel/VoxImport.cpp:112-173 | The chunk walk, whose position grows by at least a header each turn, computes the specified walk |
| `VoxImport.VoxScene.Dots` | engine/voxel/VoxImport.cpp:124-139 | The voxel loop, which stops where the data ends |
| `VoxImport.Reader.U32` | engine/voxel/VoxImport.cpp:55-61 | Little-endian read, or 0 with the position parked behind the data |
| `VoxImport.Reader.Dict` | engine/voxel/VoxImport.cpp:150-164 | The dictionary loop of a material chunk |
| `Cvars.CoerceIsIdempotent` | engine/cvar/Console.cpp:93-136 | A stored value is stored unchanged when it is set again, for every type |
| `Cvars.WhatIsStored` | engine/cvar/Console.cpp:93-131 | What is stored, type by type: one of the allowed words or nothing, 1 for the four words that mean yes and 0 for all others, the nearest value in range, any other text as it stands |
| `Cvars.Console.ApplySet` | engine/cvar/Console.cpp:93-136 | What is refused, what is stored, and that every value stays its default or a fixed point of validation |
| `Cvars.Console.SaveCvarsToml` | engine/cvar/Console.cpp:390-421 | The file holds the archived values that differ from their defaults and the unknown keys |
| `Cvars.WhatIsSaved` | engine/cvar/Console.cpp:390-421 | A key is in the file exactly if it is unknown, or archived with a value other than its default |
| `Cvars.Console.LoadCvarsToml` | engine/cvar/Console.cpp:339-388 | Every known key is applied through validation, whatever the order, and exactly the unknown ones are kept |
| `Cvars.SaveThenLoad` | engine/cvar/Console.cpp:339-421 | Saving and loading into a default registry restores every archived value; the unknown keys come back if and only if none of them is registered |
| `Cvars.SecondSaveIsTheSame` | engine/cvar/Console.cpp:390-421 | Saving again writes the same map |
| `Cvars.SaveAndRestart` | engine/cvar/Console.cpp:339-421 | The same for two consoles: what was archived is there after the restart |
| `Decimal.ParseInvertsPrint` | engine/cvar/Console.cpp:115-119 | Printing and reading back any 32-bit integer is the identity |
| `Decimal.PrintedShort` | engine/cvar/Console.cpp:115-119 | Integers are printed without zeros in front |
| `Decimal.TextReads` | engine/cvar/Console.cpp:115-119 | Any text reads as its sign and leading digits if they fit 32 bits, and as 0 otherwise |
| `Base64.Base64Decode` | engine/console/ConsoleServer.cpp:107-129 | Decodes exactly the readable texts, packing their sextets into bytes although the 32-bit accumulator overflows unmasked |
| `Base64.DecodableIffReadable` | engine/console/ConsoleServer.cpp:107-122 | A text is decoded if and only if nothing but letters of the alphabet and blanks comes before its end or first padding |
| `Base64.TableIsAlphabet` | engine/console/ConsoleServer.cpp:108-117 | The table reads the alphabet of RFC 4648, blanks and the equals sign, and rejects everything else |
| `Base64.Accumulate` | engine/console/ConsoleServer.cpp:119-127 | The byte given out depends only on bits that the overflow cannot reach |
| `Base64.DecodeInvertsEncode` | engine/console/ConsoleServer.cpp:105-129 | The padded encoding of section 4 of RFC 4648, with whitespace inserted anywhere, means the bytes it encodes |
| `Base64.DecodeEncoded` | engine/console/ConsoleServer.cpp:105-129 | So decoding such a text succeeds with those bytes |
| `VoxelWorlds.VoxelWorld.GetOrCreateChunk` | engine/voxel/VoxelWorld.cpp:43-45 | Creates an all-zero chunk at most, which changes no cell |
| `Rays.SearchStarts` | engine/voxel/VoxelWorld.cpp:250-283 | A ray that starts in a solid grid cell hits it; otherwise the march starts with nothing behind it |
| `Rays.ScaledIsUnit` | engine/voxel/VoxelWorld.cpp:240-244 | The normalised direction has length 1, so some axis moves |
| `SkipTrace.TraceStaysAhead` | engine/render/Renderer.cpp:379-407 | Jumping or not, the trace only ever finds cells ahead of where it is |
| `Capture.StoreCell` | game/main.cpp:222-230 | One turn of the filling loop stores exactly the captured cell it looks at |
| `StillFrames.StillMean` | engine/render/Renderer.cpp:623-628 | Up to 2049 samples the stored value of a still pixel is their mean |
| `Physics.PhysicsWorld.CountPooled` | engine/physics/PhysicsWorld.cpp:319-322 | Counts the slots of the pool |
| `Cvars.Console.RegisterCVar` | engine/cvar/Console.cpp:50-72 | The first registration of a name is kept |
| `Cvars.Console.SetCVarOverride` | engine/cvar/Console.cpp:138-144 | An override goes through the same validation and touches no other variable |
| `VoxImport.Reader.Str` | engine/voxel/VoxImport.cpp:105-110 | A length-prefixed string, cut short where the data ends |
| `VoxImport.Reader.Colours` | engine/voxel/VoxImport.cpp:140-149 | The colour loop, which stops where the data ends |
| `VoxImport.VoxScene.Chunk` | engine/voxel/VoxImport.cpp:120-169 | One chunk body has exactly the specified effect |
| `BlueNoise.RankOnes` | engine/render/Renderer.cpp:1816-1828 | Phase 1 gives the ranks below the number of ones to the ones, each once, every one being the tightest cluster of those ranked up to it |

## Left out

- Direct3D calls, root signatures, shader compilation, windows, screenshots, logging: foreign API plumbing. The renderer is modelled after a successful `Init`; calls on an uninitialised one do nothing in the source.
- Lighting, tone mapping, dithering and filter weights: artistic arithmetic without a crisp specification. Shading is an arbitrary sample per pixel.
- The physics simulation, velocities, forces and random spins: they only choose poses, which are arbitrary here.
- IEEE rounding: reals stand for floats throughout, keys are compared as values and not as bit patterns.
- Overflow of 32-bit cell coordinates and of `int` loop counters, and `INT_MAX` as the "no chunks" mark of `Bounds`.
- `StampVox` repeats the colour search of `AddPaletteColor` inline; both are one method here.
- The branch of the fracture code that replaces material 0 by the debris material is kept but can never be taken, since air is skipped before.
- The procedural demo scene and the starting pattern of the blue-noise bake: any world and any pattern are allowed instead.
- The unordered-access barrier between the shading pass and the first filter iteration, and the buffers bound as unordered access in the denoiser.
- What the multi-pass denoiser leaves in the accumulation buffer: any samples with non-negative counts.
- Emission values of material chunks (`atof`, powers): a parameter from dictionary to alpha byte; reading the dictionary itself is modelled.
- Files, the TOML syntax, schema migration (it renames nothing) and float formatting: a cvars file is an exact map, and floats have a codec that round-trips.
- Change callbacks of cvars, error texts, registration metadata that validation does not use.
- Network sessions, TLS, login, the web console, scripting, audio, ECS, the job scheduler's internals, key bindings and the command tokenizer.
- Scenes.Scene.Simulate: does not model the fixed-step accumulator, only that bodies end up somewhere; the pause switch leaves the step out altogether.
- The ambient-occlusion march: a short cell-by-cell walk whose result only weighs light.
- StillFrames.RenderStillFrames: for a camera with an orthonormal basis and scale terms above the 1e-6 guard; below it `Reprojection.ProjectionInvertsRays` shows that projecting does not undo the ray.
