// The destructible scene: world, renderer, bodies and debris, and the commands that change them.
module Scenes {
  import opened Grid
  import opened Palettes
  import opened Terrain
  import opened Stamping
  import opened Vectors
  import opened Rays
  import opened VoxelWorlds
  import opened Bricks
  import opened Reprojection
  import opened TemporalHistory
  import opened HistoryRuns
  import opened Rendering
  import opened Physics
  import opened DebrisChunks
  import opened Fracture
  import opened Overlay
  import opened LiveChunks
  import opened Repaint
  import opened Debris
  import opened VoxFormat
  import opened VoxImport

  const DEBRIS_COLOUR: Word := 0x0040_4C66
  const BREAK_RANGE: real := 256.0

  lemma DebrisColour()
    ensures HasChannels(DEBRIS_COLOUR, 0x66, 0x4C, 0x40, 0)
  {
  }

  // Solid voxels of the terrain and of the debris together.
  function Matter(m: Voxels, live: seq<DebrisChunk>): nat {
    |m| + SumSolid(live)
  }

  lemma {:induction false} SumSolidAppend(a: seq<DebrisChunk>, b: seq<DebrisChunk>)
    ensures SumSolid(a + b) == SumSolid(a) + SumSolid(b)
  {
    if b == [] {
      assert a + b == a;
    } else {
      var n := |b| - 1;
      SumSolidAppend(a, b[..n]);
      assert (a + b)[..|a + b| - 1] == a + b[..n];
    }
  }

  // A blast conserves the solid voxels if and only if every piece became a chunk.
  lemma BlastConserves(was: seq<DebrisChunk>, live: seq<DebrisChunk>, d: seq<Body>, b: Blast, spawned: nat)
    requires b.Valid() && b.radius >= 0 && was <= live && spawned <= |b.Pieces()|
    requires Spawned(live[|was|..], d, b.m, b.Pieces()[..spawned])
    ensures Matter(AfterCarve(b.m, b.centre, b.radius), live) <= Matter(b.m, was)
    ensures Matter(AfterCarve(b.m, b.centre, b.radius), live) == Matter(b.m, was) <==> spawned == |b.Pieces()|
  {
    ConservedIffAllSpawned(b, spawned);
    CarveCount(b.m, b.centre, b.radius);
    SpawnedSizes(live[|was|..], d, b.m, b.Pieces()[..spawned]);
    SumSolidAppend(was, live[|was|..]);
    assert was + live[|was|..] == live;
    TakeIsLess(b.Pieces(), spawned);
    hide Spawned, AfterCarve, CarvedCells;
  }

  lemma {:induction false} TakeIsLess(pieces: seq<set<Cell>>, k: nat)
    requires k <= |pieces|
    ensures TotalSize(pieces[..k]) <= TotalSize(pieces)
  {
    if k == |pieces| {
      assert pieces[..k] == pieces;
    } else {
      TakeIsLess(pieces[..|pieces| - 1], k);
      assert pieces[..|pieces| - 1][..k] == pieces[..k];
    }
  }

  // What the console, the upload handler and the engine loop can ask of the scene.
  datatype Command =
    | PlaceModel(file: Bytes, cursor: Cell)
    | ClearWorld
    | BreakAt(origin: Vec3, dir: Vec3, len: real, radius: int, maxLive: int, scale: real)
    | Tick(pose: nat -> Pose, dt: real)
    | DrawFrame(shot: Shot, root: real -> real)
    | Turn(switch: Switch, on: bool)

  // `len` is the direction's length, poses are unit quaternions, and a frame has one ray a pixel.
  ghost predicate Possible(c: Command, screen: Screen) {
    match c
    case DrawFrame(shot, root) => ShotFits(shot, screen) && IsRoot(root)
    case Turn(_, _) => true
    case BreakAt(_, dir, len, _, _, _) => len >= 0.0 && len * len == Dot(dir, dir)
    case Tick(pose, _) => forall i: nat :: Unit(pose(i))
    case PlaceModel(_, _) => true
    case ClearWorld => true
  }

  // ------------------------------------------------------------------------------------------
  // What each command does to the scene
  // ------------------------------------------------------------------------------------------

  // All there is to see of a scene: the world with its colours, the grid and the colours on the GPU,
  // the debris and its bodies, how many frames were drawn and how the switches stand.
  datatype Snapshot = Snapshot(world: Canvas, cells: seq<Word>, shown: Palette, live: seq<DebrisChunk>,
                               pool: PoolState, frames: nat, switches: Switches)

  ghost predicate SameDebris(s: Snapshot, s': Snapshot) {
    s'.live == s.live && s'.pool == s.pool
  }

  ghost predicate SameDrawing(s: Snapshot, s': Snapshot) {
    s'.frames == s.frames && s'.switches == s.switches
  }

  ghost predicate SameColours(s: Snapshot, s': Snapshot) {
    s'.world.palette == s.world.palette && s'.world.used == s.world.used && s'.shown == s.shown
  }

  ghost predicate SameScene(s: Snapshot, s': Snapshot) {
    s'.world == s.world && s'.cells == s.cells && s'.shown == s.shown && SameDebris(s, s')
  }

  // A file that cannot be parsed changes nothing; any other is stamped, and the whole world uploaded.
  ghost predicate Placing(e: Emission, file: Bytes, cursor: Cell, s: Snapshot, s': Snapshot) {
    var parsed := Parse(file, e, map[]);
    if parsed.None? then s' == s
    else
      && SameDebris(s, s') && SameDrawing(s, s') && s'.shown == s'.world.palette
      && Placed(parsed.value, cursor, s.world, s'.world) && ShowsTerrain(s'.cells, s'.world.voxels)
  }

  ghost predicate Clearing(s: Snapshot, s': Snapshot) {
    && Bakes(map[], s'.cells, WORLD_DIM) && InUse(s'.pool.slots) == {}
    && SameDrawing(s, s') && s'.world.voxels == map[] && s'.live == []
    && s'.world.used == 1 && forall i :: 0 <= i < PALETTE_SIZE ==> s'.world.palette[i] == 0 && s'.shown[i] == 0
  }

  // The ball around the first solid voxel on the ray is broken and carved; without one nothing happens.
  ghost predicate BreaksAt(o: Vec3, dir: Vec3, len: real, radius: int, maxLive: int, scale: real, s: Snapshot,
                           s': Snapshot) {
    if len < 1.0e-12 then s' == s
    else
      || (exists hit :: FirstHit(s.world.voxels, o, Scaled(dir, len), 256.0, hit)
                        && Blasted(hit, radius, maxLive, scale, s, s'))
      || (s' == s && Missed(s.world.voxels, o, Scaled(dir, len), 256.0)
          && (InGrid(StartCell(o)) ==> NothingAhead(s.world.voxels, o, dir)))
  }

  // What is carved is shown as carved, and the pieces that can be had are new chunks.
  ghost predicate Blasted(hit: Cell, radius: int, maxLive: int, scale: real, s: Snapshot, s': Snapshot) {
    && SameColours(s, s') && SameDrawing(s, s') && s'.world.voxels == AfterCarve(s.world.voxels, hit, radius)
    && Cleared(s.cells, s'.cells, s'.world.voxels, CarveBox(hit, radius))
    && Roomy(s.pool, s'.pool.slots, maxLive)
    && if Shatters(hit, radius) then
         Shattered(Onset(s.live, s.pool, Max(maxLive, 0),
                         BlastOf(s.world.voxels, hit, radius, if scale > 0.0 then scale else 0.0)),
                   s'.live, s'.pool.slots)
       else s'.live == s.live
  }

  // The live bodies take the poses the simulation gives them.
  ghost predicate BodiesMoved(pose: nat -> Pose, d: seq<Body>, moved: seq<Body>) {
    |moved| == |d| && forall i :: 0 <= i < |d| ==> moved[i] == if Live(d[i]) then d[i].(pose := pose(i)) else d[i]
  }

  // The bodies move; dead chunks are taken off the grid, and the others are drawn where they are now.
  ghost predicate Ticking(pose: nat -> Pose, dt: real, s: Snapshot, s': Snapshot) {
    && s'.world == s.world && s'.shown == s.shown && SameDrawing(s, s')
    && exists moved :: BodiesMoved(pose, s.pool.slots, moved) && DebrisFrame(dt, moved, s, s')
  }

  ghost predicate DebrisFrame(dt: real, moved: seq<Body>, s: Snapshot, s': Snapshot) {
    && OutlastFrame(s.live, moved, dt, s'.live)
    && KeepsBodies(Survivors(s.live, moved, dt), moved, s'.pool.slots)
    && exists culled, jobs ::
         && CulledCells(s.cells, culled, s.world.voxels, s.live, moved, dt)
         && FrameJobs(Survivors(s.live, moved, dt), jobs, s'.pool.slots, s.world.voxels) && s'.live == AllFinished(jobs)
         && PaintedAll(culled, s'.cells, s.world.voxels, jobs)
  }

  ghost predicate Stepped(e: Emission, c: Command, s: Snapshot, s': Snapshot) {
    match c
    case PlaceModel(file, cursor) => Placing(e, file, cursor, s, s')
    case ClearWorld => Clearing(s, s')
    case BreakAt(o, dir, len, radius, maxLive, scale) => BreaksAt(o, dir, len, radius, maxLive, scale, s, s')
    case Tick(pose, dt) => Ticking(pose, dt, s, s')
    case DrawFrame(_, _) => SameScene(s, s') && s'.frames == s.frames + 1 && s'.switches == s.switches
    case Turn(switch, on) =>
      SameScene(s, s') && s'.frames == s.frames && s'.switches == HistoryRuns.Turned(s.switches, switch, on)
  }

  // The scene before and after every command of a run.
  ghost predicate Trace(e: Emission, commands: seq<Command>, trace: seq<Snapshot>) {
    && |trace| == |commands| + 1
    && forall i :: 0 <= i < |commands| ==> Stepped(e, commands[i], trace[i], trace[i + 1])
  }

  lemma TraceStart(e: Emission, commands: seq<Command>, s: Snapshot)
    ensures Trace(e, commands[..0], [s])
  {
  }

  lemma TraceStep(e: Emission, commands: seq<Command>, trace: seq<Snapshot>, i: nat, next: Snapshot)
    requires i < |commands| && |trace| == i + 1 && Trace(e, commands[..i], trace)
    requires Stepped(e, commands[i], trace[i], next)
    ensures Trace(e, commands[..i + 1], trace + [next])
  {
    hide Stepped;
  }

  // Without chunks there is nothing to do in a frame.
  lemma NoDebrisFrame(dt: real, moved: seq<Body>, s: Snapshot, s': Snapshot)
    requires s.live == [] == s'.live && s'.cells == s.cells && VoxelSized(s.cells) && s'.pool.slots == moved
    ensures DebrisFrame(dt, moved, s, s')
  {
    SurvivorsOutlast([], moved, dt);
    var m := s.world.voxels;
    assert CulledCells(s.cells, s.cells, m, [], moved, dt);
    assert FrameJobs([], [], moved, m) && AllFinished([]) == [] && PaintedAll(s.cells, s.cells, m, []);
  }

  // The renderer of a first world; the debris colour is pinned in both palettes.
  method StartRenderer(start: VoxelWorld, startPalette: Palette, screen: Screen, ready: bool)
    returns (r: Renderer, mat: Byte)
    requires start.Valid()
    modifies start`palette, start`paletteUsed
    ensures start.Valid() && start.Repr == old(start.Repr) && start.Contents == old(start.Contents)
    ensures r.Valid() && fresh(r.Repr()) && r.history.screen == screen && ShowsTerrain(r.Cells(), start.Contents)
    ensures Spare(startPalette, mat)
    ensures r.palette == startPalette[mat := DEBRIS_COLOUR]
    ensures start.palette == old(start.palette)[mat := DEBRIS_COLOUR]
    ensures start.paletteUsed == Max(old(start.paletteUsed), mat + 1)
  {
    hide VoxelWorld.Valid, Spare;
    var grid := start.BakeFlatGrid(WORLD_DIM);
    mat := SpareEntry(startPalette);
    SpareIsNotAir(startPalette, mat);
    start.SetPaletteColor(mat, DEBRIS_COLOUR);
    r := new Renderer(Some(grid), grid[..], startPalette[mat := DEBRIS_COLOUR], screen, ready);
    FullUpload(start.Contents, grid[..], r.Cells());
  }

  lemma NothingLive(d: seq<Body>, g: seq<Word>, m: Voxels)
    requires ShowsTerrain(g, m) && d == []
    ensures IdsMatch([], d) && Consistent(g, m, [])
  {
    TerrainOnly(g, m, []);
  }

  // The debris half of a blast: bodies are reserved, then the ball is broken into chunks.
  method BreakUp(world: VoxelWorld, physics: PhysicsWorld, debris: DebrisField, hit: Cell, radius: int, maxLive: int,
                 scale: real)
    requires debris.Valid() && world.Valid() && physics.Valid() && IdsMatch(debris.live, physics.dynamics)
    requires debris !in world.Repr && physics !in world.Repr
    modifies physics, debris
    ensures debris.Valid() && physics.Valid() && IdsMatch(debris.live, physics.dynamics)
    ensures old(debris.live) <= debris.live && SlotsStable(old(physics.dynamics), physics.dynamics)
    ensures Roomy(old(physics.Pool()), physics.dynamics, maxLive)
    ensures if Shatters(hit, radius)
            then Shattered(Onset(old(debris.live), old(physics.Pool()), Max(maxLive, 0),
                                 BlastOf(world.Contents, hit, radius, if scale > 0.0 then scale else 0.0)),
                           debris.live, physics.dynamics)
            else debris.live == old(debris.live)
  {
    hide VoxelWorld.Valid, PoolValid, IdsMatch, Fractured, Shattered, BlastOf, Shatters, ChunksValid, SlotsStable,
         Roomy;
    ghost var was, pool := debris.live, physics.Pool();
    debris.SetMaxLive(maxLive);
    debris.SetScale(scale);
    debris.ReservePool(physics);
    ghost var reserved := physics.Pool();
    debris.SpawnFromCarve(world, physics, hit, radius);
    if Shatters(hit, radius) {
      GrownBy(Onset(was, pool, debris.maxLive, BlastOf(world.Contents, hit, radius, debris.scale)),
              reserved, debris.live, physics.Pool());
    } else {
      StableRefl(reserved.slots);
    }
    PrefixStable(pool.slots, reserved.slots);
    StableTrans(pool.slots, reserved.slots, physics.dynamics);
    StaysRoomy(pool, reserved.slots, physics.dynamics, Max(maxLive, 0), maxLive);
  }

  lemma StaysRoomy(was: PoolState, d: seq<Body>, d': seq<Body>, cap: nat, maxLive: int)
    requires Roomy(was, d, cap) && SlotsStable(d, d') && cap == Max(maxLive, 0)
    ensures Roomy(was, d', maxLive)
  {
    assert PooledSlots(d) <= PooledSlots(d');
    Subset(PooledSlots(d), PooledSlots(d'));
  }

  lemma Subset(a: set<int>, b: set<int>)
    requires a <= b
    ensures |a| <= |b|
  {
    assert b == a + (b - a);
  }

  lemma PrefixStable(d: seq<Body>, d': seq<Body>)
    requires d <= d'
    ensures SlotsStable(d, d')
  {
  }

  // A parsed file is stamped into a world.
  method StampFile(world: VoxelWorld, file: Bytes, emission: Emission, cursor: Cell) returns (ok: bool)
    requires world.Valid()
    modifies world.Repr
    ensures world.Valid() && fresh(world.Repr - old(world.Repr))
    ensures ok <==> Parse(file, emission, map[]).Some?
    ensures !ok ==> world.Contents == old(world.Contents)
    ensures !ok ==> world.palette == old(world.palette) && world.paletteUsed == old(world.paletteUsed)
    ensures ok ==> Placed(Parse(file, emission, map[]).value, cursor, old(world.Painted()), world.Painted())
    ensures Grows(old((world.palette, world.paletteUsed)), (world.palette, world.paletteUsed))
  {
    PaletteGrows(world);
    hide Extends, VoxelWorld.Valid, Parse, Placed, WithAlpha, StampOf, ColoursKept, HasRoom, Placement,
         NearestPlacement, SolidBounds;
    ghost var was := world.Painted();
    var vs := new VoxScene();
    ok := vs.LoadVoxFromMemory(file, emission);
    if ok {
      world.StampVox(vs.world, vs.palette, cursor);
      PlacedHolds(Parse(file, emission, map[]).value, vs.palette, cursor, was, world.Painted());
    }
  }

  lemma PaletteGrows(world: VoxelWorld)
    requires world.Valid()
    ensures Extends(world.palette, world.paletteUsed, world.palette, world.paletteUsed)
  {
  }

  class Scene {
    const world: VoxelWorld
    const renderer: Renderer
    const physics: PhysicsWorld
    const debris: DebrisField
    const emission: Emission

    ghost function Repr(): set<object>
      reads world
    {
      world.Repr + renderer.Repr() + {physics, debris}
    }

    // Every layer is in order, live chunks own exactly the acquired bodies, and every cell of
    // the GPU grid shows the terrain or a live chunk.
    ghost predicate Valid()
      reads world, world.Repr, renderer, renderer.Repr(), physics, debris
    {
      && debris.Valid() && physics.Valid() && debris.Ready(world, physics, renderer)
      && IdsMatch(debris.live, physics.dynamics)
      && Consistent(renderer.Cells(), world.Contents, debris.live)
    }

    // The world's colours and how many of their slots are taken.
    ghost function Colours(): (Palette, nat)
      reads world
    {
      (world.palette, world.paletteUsed)
    }

    ghost function Now(): Snapshot
      reads world, renderer, renderer.voxelPtr, renderer.history, debris, physics
    {
      Snapshot(world.Painted(), renderer.Cells(), renderer.palette, debris.live, physics.Pool(),
               renderer.history.frames, renderer.history.SwitchesNow())
    }

    // The screen shows the world's colours. A world stamped together at start-up begins like this; one
    // that was imported does not, since its colours go to the renderer alone, but the first stamp
    // and the first clear bring it about.
    ghost predicate OnePalette()
      reads world, renderer
    {
      renderer.palette == world.palette
    }

    // Start-up: the first world is baked for the renderer, and the debris colour is pinned in a
    // spare entry of the renderer's palette, in that palette and in the world's.
    constructor (start: VoxelWorld, startPalette: Palette, actors: nat, screen: Screen, ready: bool, e: Emission)
      requires start.Valid()
      modifies start`palette, start`paletteUsed
      ensures Valid() && world == start && emission == e && debris.live == [] && world.Contents == old(start.Contents)
      ensures fresh(Repr() - start.Repr) && start.Repr == old(start.Repr) && renderer.history.screen == screen
      ensures var mat := debris.debrisMat;
        && Spare(startPalette, mat) && renderer.palette == startPalette[mat := DEBRIS_COLOUR]
        && Colours() == (old(start.palette)[mat := DEBRIS_COLOUR], Max(old(start.paletteUsed), mat + 1))
    {
      hide VoxelWorld.Valid, Renderer.Valid, DebrisField.Valid, Spare, PoolValid, IdsMatch, Consistent, ShowsTerrain;
      var r, debrisMat := StartRenderer(start, startPalette, screen, ready);
      var p := new PhysicsWorld(actors);
      var f := new DebrisField(debrisMat);
      world, renderer, physics, debris, emission := start, r, p, f, e;
      new;
      NothingLive(p.dynamics, renderer.Cells(), world.Contents);
    }

    // When no chunk is live the grid is exactly the baked world.
    lemma NoDebrisShowsTerrain()
      requires Valid() && debris.live == []
      ensures Bakes(world.Contents, renderer.Cells(), WORLD_DIM)
    {
      TerrainOnly(renderer.Cells(), world.Contents, []);
    }

    // A cell that no chunk has painted is shown in the colour of the world's voxel.
    lemma CellOnScreen(c: Cell)
      requires Valid() && OnePalette() && InGrid(c)
      requires forall i :: 0 <= i < |debris.live| && debris.live[i].hasPrev ==> !InBox(debris.live[i].prev, c)
      ensures VoxelSized(renderer.Cells()) && Peek(renderer.Cells(), WORLD_DIM, c) < PALETTE_SIZE
      ensures renderer.palette[Peek(renderer.Cells(), WORLD_DIM, c)] == world.palette[At(world.Contents, c)]
    {
      NotPainted(renderer.Cells(), world.Contents, debris.live, c);
    }

    lemma Apart()
      requires Valid()
      ensures debris !in world.Repr && physics !in world.Repr && world.Repr !! renderer.Repr()
    {
    }

    // Where a blast begins.
    ghost function OnsetOf(hit: Cell, radius: int, maxLive: int, scale: real): Onset
      requires Shatters(hit, radius)
      reads world, physics, debris
    {
      Onset(debris.live, physics.Pool(), Max(maxLive, 0),
            BlastOf(world.Contents, hit, radius, if scale > 0.0 then scale else 0.0))
    }

    // Breaks the solid voxels of a ball into chunks.
    method Shatter(hit: Cell, radius: int, maxLive: int, scale: real)
      requires Valid()
      modifies physics, debris
      ensures Valid() && SlotsStable(old(physics.dynamics), physics.dynamics)
      ensures Roomy(old(physics.Pool()), physics.dynamics, maxLive)
      ensures if Shatters(hit, radius)
              then Shattered(old(OnsetOf(hit, radius, maxLive, scale)), debris.live, physics.dynamics)
              else debris.live == old(debris.live)
    {
      hide VoxelWorld.Valid, DebrisField.Valid, PoolValid, IdsMatch, Consistent, Shattered, BlastOf, Shatters, Roomy;
      ghost var was := debris.live;
      BreakUp(world, physics, debris, hit, radius, maxLive, scale);
      NewChunksKeep(renderer.Cells(), world.Contents, was, debris.live);
    }

    // Carves a ball and uploads the carved box.
    method Cut(hit: Cell, radius: int) returns (removed: nat)
      requires Valid()
      modifies world.Repr, renderer.Repr()
      ensures Valid() && fresh(world.Repr - old(world.Repr))
      ensures world.Contents == AfterCarve(old(world.Contents), hit, radius)
      ensures removed == |old(world.Contents)| - |world.Contents|
      ensures renderer.palette == old(renderer.palette) && Colours() == old(Colours())
      ensures Cleared(old(renderer.Cells()), renderer.Cells(), world.Contents, CarveBox(hit, radius))
      ensures renderer.history.frames == old(renderer.history.frames)
      ensures renderer.history.SwitchesNow() == old(renderer.history.SwitchesNow())
    {
      hide VoxelWorld.Valid, PoolValid, IdsMatch, Consistent, AfterCarve, CarveBox, ChunksValid, Cleared;
      ghost var m, g := world.Contents, renderer.Cells();
      removed := world.CarveSphere(hit, radius);
      CarveBoxInGrid(hit, radius);
      ClearBoxToTerrain(world, renderer, CarveBox(hit, radius));
      CarveKeeps(g, renderer.Cells(), m, debris.live, hit, radius);
    }

    // A blast: the ball is broken into chunks, then carved.
    method Blow(hit: Cell, radius: int, maxLive: int, scale: real) returns (removed: nat)
      requires Valid()
      modifies Repr()
      ensures Valid() && fresh(Repr() - old(Repr()))
      ensures world.Contents == AfterCarve(old(world.Contents), hit, radius)
      ensures removed == |old(world.Contents)| - |world.Contents|
      ensures old(debris.live) <= debris.live
      ensures renderer.palette == old(renderer.palette) && Colours() == old(Colours())
      ensures SlotsStable(old(physics.dynamics), physics.dynamics)
      ensures if Shatters(hit, radius)
              then Shattered(old(OnsetOf(hit, radius, maxLive, scale)), debris.live, physics.dynamics)
              else debris.live == old(debris.live)
      ensures Blasted(hit, radius, maxLive, scale, old(Now()), Now())
      // No voxel is lost if and only if every piece fits under the cap and can have a body - or, when
      // the ball is not broken up at all, if the carve has nothing to remove.
      ensures Matter(world.Contents, debris.live) == Matter(old(world.Contents), old(debris.live)) <==>
        if Shatters(hit, radius) then AllSpawn(old(OnsetOf(hit, radius, maxLive, scale)))
        else !(radius == 0 && InGrid(hit) && hit in old(world.Contents))
    {
      hide Scene.Valid, AfterCarve, Shattered, Matter, Shatters, BlastOf, Blast.Pieces, Blast.Valid, AllSpawn, Cleared,
           CarveBox, Roomy;
      ghost var was, m := debris.live, world.Contents;
      Shatter(hit, radius, maxLive, scale);
      Apart();
      if Shatters(hit, radius) {
        FitConserves(old(OnsetOf(hit, radius, maxLive, scale)), debris.live, physics.dynamics);
      } else {
        UnbrokenConserves(m, was, hit, radius);
      }
      removed := Cut(hit, radius);
    }

    // voxel.break and voxel.explode: blast the first solid voxel along a ray.
    method Break(o: Vec3, dir: Vec3, len: real, radius: int, maxLive: int, scale: real)
      returns (hit: Option<Cell>, removed: nat)
      requires Valid() && len >= 0.0 && len * len == Dot(dir, dir)
      modifies Repr()
      ensures Valid() && fresh(Repr() - old(Repr())) && SlotsStable(old(physics.dynamics), physics.dynamics)
      ensures renderer.palette == old(renderer.palette) && Colours() == old(Colours())
      ensures hit == None ==> world.Contents == old(world.Contents) && removed == 0
      ensures hit.Some? ==> len >= 1.0e-12 && FirstHit(old(world.Contents), o, Scaled(dir, len), 256.0, hit.value)
      ensures hit.Some? ==> world.Contents == AfterCarve(old(world.Contents), hit.value, radius)
      ensures hit == None && len >= 1.0e-12 ==> Missed(world.Contents, o, Scaled(dir, len), 256.0)
      ensures hit == None && len >= 1.0e-12 && InGrid(StartCell(o)) ==> NothingAhead(world.Contents, o, dir)
      ensures BreaksAt(o, dir, len, radius, maxLive, scale, old(Now()), Now())
    {
      hide VoxelWorld.Valid, FirstHit, Missed, ClearTo, AfterCarve, Shattered, AllSpawn, Matter, BlastOf, Blast.Pieces,
           Scene.Valid, NothingAhead, Blasted, Scaled;
      ValidLayers();
      ghost var capped;
      hit, capped := world.RaycastSolid(o, dir, len, BREAK_RANGE);
      removed := 0;
      StableRefl(physics.dynamics);
      if hit == None && len >= TINY && InGrid(StartCell(o)) {
        ClearForGood(world.Contents, o, dir, len);
      }
      if hit.Some? {
        removed := Blow(hit.value, radius, maxLive, scale);
      }
    }

    lemma ValidLayers()
      requires Valid()
      ensures world.Valid()
    {
    }

    // Bakes the whole world for the renderer.
    method Refresh()
      requires world.Valid() && renderer.Valid() && world.Repr !! renderer.Repr()
      modifies renderer.voxelPtr, renderer.brickPtr, renderer`palette
      modifies renderer.history`accumFrame, renderer.history`accHave, renderer.history`epoch
      ensures world.Valid() && renderer.Valid() && ShowsTerrain(renderer.Cells(), world.Contents)
      ensures renderer.palette == world.palette
    {
      hide VoxelWorld.Valid;
      var grid := world.BakeFlatGrid(WORLD_DIM);
      renderer.SetVoxels(grid, Some(world.palette));
      FullUpload(world.Contents, grid[..], renderer.Cells());
    }

    // voxel.clear.
    method Clear()
      requires Valid()
      modifies Repr()
      ensures Valid() && fresh(Repr() - old(Repr())) && SlotsStable(old(physics.dynamics), physics.dynamics)
      ensures world.Contents == map[] && debris.live == [] && InUse(physics.dynamics) == {}
      ensures Bakes(map[], renderer.Cells(), WORLD_DIM)
      // the pinned debris colour is gone as well
      ensures renderer.palette == EMPTY_PALETTE && Colours() == (EMPTY_PALETTE, 1)
      ensures Clearing(old(Now()), Now())
    {
      hide VoxelWorld.Valid, PoolValid, Consistent, IdsMatch, ShowsTerrain, ChunksValid;
      debris.ClearAll(world, physics, renderer);
      world.Clear();
      Refresh();
      TerrainOnly(renderer.Cells(), world.Contents, []);
      ClearedBakes(renderer.Cells());
      NobodyInUse(physics.dynamics);
    }

    // voxel.place and the upload handler: a parsed model is stamped into the world at the cursor.
    method Place(file: Bytes, cursor: Cell) returns (ok: bool)
      requires Valid()
      modifies Repr()
      ensures Valid() && fresh(Repr() - old(Repr()))
      ensures physics.dynamics == old(physics.dynamics) && debris.live == old(debris.live)
      ensures ok <==> Parse(file, emission, map[]).Some?
      ensures !ok ==> world.Contents == old(world.Contents) && renderer.Cells() == old(renderer.Cells())
      ensures !ok ==> renderer.palette == old(renderer.palette) && Colours() == old(Colours())
      ensures ok ==> ShowsTerrain(renderer.Cells(), world.Contents) && renderer.palette == world.palette
      ensures ok ==> Placed(Parse(file, emission, map[]).value, cursor, old(world.Painted()), world.Painted())
      // Colours in use stay where they are; a palette whose top slot is pinned takes no new ones.
      ensures Grows(old(Colours()), Colours())
      ensures old(world.paletteUsed) == PALETTE_SIZE ==> Colours() == old(Colours())
      ensures Placing(emission, file, cursor, old(Now()), Now())
    {
      hide VoxelWorld.Valid, PoolValid, Consistent, IdsMatch, ShowsTerrain, ChunksValid, Parse, Placed, Grows;
      ghost var colours := Colours();
      ok := StampFile(world, file, emission, cursor);
      FullStaysFull(colours, Colours());
      if ok {
        Refresh();
        TerrainOnly(renderer.Cells(), world.Contents, debris.live);
      }
    }

    // The simulation moves the bodies, then the debris follows.
    method Simulate(pose: nat -> Pose, dt: real)
      requires Valid() && forall i: nat :: Unit(pose(i))
      modifies physics, debris, renderer.Repr()
      ensures Valid() && SlotsStable(old(physics.dynamics), physics.dynamics)
      ensures renderer.palette == old(renderer.palette) && Colours() == old(Colours())
      ensures |debris.live| <= |old(debris.live)|
      ensures Ticking(pose, dt, old(Now()), Now())
    {
      hide VoxelWorld.Valid, PoolValid, Consistent, ChunksValid, IdsMatch, FrameJobs, PaintedAll, CulledCells,
           KeepsBodies, Unit, Survivors, OutlastFrame;
      ghost var d, s := physics.dynamics, Now();
      var n := |physics.dynamics|;
      physics.Step(seq(n, i requires 0 <= i => pose(i)));
      ghost var moved := physics.dynamics;
      IdsMatchMoved(debris.live, d, physics.dynamics);
      if debris.live != [] {
        ghost var was := debris.live;
        ghost var survivors, culled, jobs := debris.Update(world, physics, renderer, dt);
        FewerSurvive(was, moved, dt);
        JobCount(survivors, jobs, physics.dynamics, world.Contents);
        assert DebrisFrame(dt, moved, s, Now());
      } else {
        NoDebrisFrame(dt, moved, s, Now());
      }
      assert BodiesMoved(pose, d, moved);
      StableTrans(d, moved, physics.dynamics);
    }

    // A frame is rendered; nothing but the temporal history changes.
    method Draw(shot: Shot, root: real -> real)
      requires Valid() && ShotFits(shot, renderer.history.screen) && IsRoot(root)
      modifies renderer.history, renderer.history.Buffers()
      ensures Valid() && world.Contents == old(world.Contents) && renderer.Cells() == old(renderer.Cells())
      // old samples are trusted only if the previous frame left them and no edit came in between
      ensures shot.scene.lightingMode == 1 && renderer.history.accumFrame != 0 ==>
        var h := renderer.history;
        old(h.frames) > 0 && old(h.PreviousStamp()) == Some(Stamp(old(h.frames) - 1, shot.scene, h.epoch))
      ensures SameScene(old(Now()), Now()) && renderer.history.frames == old(renderer.history.frames) + 1
      ensures renderer.history.SwitchesNow() == old(renderer.history.SwitchesNow())
    {
      hide VoxelWorld.Valid, PoolValid, Consistent, ChunksValid, IdsMatch, BricksExact, History.Valid, ShotFits, IsRoot,
           SinglePass;
      var histMax, multipass := renderer.history.RenderFrame(shot, root);
    }

    // A switch of the renderer is turned.
    method Flip(switch: Switch, on: bool)
      requires Valid()
      modifies renderer.history
      ensures Valid() && world.Contents == old(world.Contents) && renderer.Cells() == old(renderer.Cells())
      ensures SameScene(old(Now()), Now()) && renderer.history.frames == old(renderer.history.frames)
      ensures renderer.history.SwitchesNow() == HistoryRuns.Turned(old(renderer.history.SwitchesNow()), switch, on)
    {
      hide VoxelWorld.Valid, PoolValid, Consistent, ChunksValid, IdsMatch, BricksExact, History.Valid,
           HistoryRuns.Turned;
      Toggle(renderer.history, switch, on);
    }

    method Execute(c: Command)
      requires Valid() && Possible(c, renderer.history.screen)
      modifies Repr()
      ensures Valid() && fresh(Repr() - old(Repr())) && SlotsStable(old(physics.dynamics), physics.dynamics)
      ensures c.ClearWorld? || Grows(old(Colours()), Colours())
      ensures old(OnePalette()) ==> OnePalette()
      ensures Stepped(emission, c, old(Now()), Now())
    {
      GrowsRefl();
      hide Scene.Valid, Placed, FirstHit, Missed, AfterCarve, Parse, ShowsTerrain, Grows, Placing, Clearing, BreaksAt,
           Blasted, Ticking, HistoryRuns.Turned;
      match c
      case PlaceModel(file, cursor) =>
        StableRefl(physics.dynamics);
        var ok := Place(file, cursor);
      case ClearWorld =>
        Clear();
      case BreakAt(o, dir, len, radius, maxLive, scale) =>
        var hit, removed := Break(o, dir, len, radius, maxLive, scale);
      case Tick(pose, dt) =>
        Simulate(pose, dt);
      case DrawFrame(shot, root) =>
        StableRefl(physics.dynamics);
        Draw(shot, root);
      case Turn(switch, on) =>
        StableRefl(physics.dynamics);
        Flip(switch, on);
    }

    // Any run of commands keeps every layer consistent, and whenever it leaves no chunk alive
    // the GPU grid is the baked world.
    method Run(commands: seq<Command>) returns (ghost trace: seq<Snapshot>)
      requires Valid() && forall i :: 0 <= i < |commands| ==> Possible(commands[i], renderer.history.screen)
      modifies Repr()
      ensures Valid() && fresh(Repr() - old(Repr())) && SlotsStable(old(physics.dynamics), physics.dynamics)
      // Every command has its effect, and nothing else happens.
      ensures |trace| == |commands| + 1 && Trace(emission, commands, trace) && trace[0] == old(Now())
      ensures trace[|commands|] == Now()
      ensures debris.live == [] ==> Bakes(world.Contents, renderer.Cells(), WORLD_DIM)
      // Once both palettes are the same they stay the same.
      ensures old(OnePalette()) ==> OnePalette()
      // Between two clears no colour in use ever changes, and a full palette not at all.
      ensures (forall c <- commands :: !c.ClearWorld?) ==>
        Grows(old(Colours()), Colours()) && (old(world.paletteUsed) == PALETTE_SIZE ==> Colours() == old(Colours()))
    {
      GrowsRefl();
      TraceStart(emission, commands, Now());
      hide Scene.Valid, Possible, Bakes, SlotsStable, Grows, Stepped, Scene.Now, Trace, Scene.OnePalette, Scene.Colours;
      StableRefl(physics.dynamics);
      trace := [Now()];
      for i := 0 to |commands|
        invariant |trace| == i + 1 && Trace(emission, commands[..i], trace) && trace[0] == old(Now())
        invariant trace[i] == Now()
        invariant Valid() && fresh(Repr() - old(Repr())) && SlotsStable(old(physics.dynamics), physics.dynamics)
        invariant old(OnePalette()) ==> OnePalette()
        invariant (forall j :: 0 <= j < i ==> !commands[j].ClearWorld?) ==> Grows(old(Colours()), Colours())
      {
        ghost var d, colours := physics.dynamics, Colours();
        Execute(commands[i]);
        TraceStep(emission, commands, trace, i, Now());
        trace := trace + [Now()];
        GrowsTrans(old(Colours()), colours, Colours());
        StableTrans(old(physics.dynamics), d, physics.dynamics);
      }
      assert commands[..|commands|] == commands;
      if debris.live == [] {
        NoDebrisShowsTerrain();
      }
      FullStaysFull(old(Colours()), Colours());
    }

    lemma GrowsRefl()
      requires Valid()
      ensures Grows(Colours(), Colours())
    {
    }
  }

  lemma NotPainted(g: seq<Word>, m: Voxels, live: seq<DebrisChunk>, c: Cell)
    requires Consistent(g, m, live) && InGrid(c)
    requires forall i :: 0 <= i < |live| && live[i].hasPrev ==> !InBox(live[i].prev, c)
    ensures VoxelSized(g) && Peek(g, WORLD_DIM, c) == At(m, c)
  {
    hide ChunkShape, DebrisChunks.Sample;
  }

  // A stamp for whose colours there is room is seen in its own colours.
  lemma StampOnScreen(p: Parsed, cursor: Cell, was: Canvas, now: Canvas, g: seq<Word>, shown: Palette, b: Box, c: Cell)
    requires Placed(p, cursor, was, now) && ShowsTerrain(g, now.voxels) && shown == now.palette
    requires SolidBounds(p.voxels, b) && c in p.voxels && InGrid(Shift(c, Placement(b, cursor)))
    requires HasRoom(was, Model(p.voxels, WithAlpha(p.palette, p.alpha)), Placement(b, cursor))
    ensures var d := Shift(c, Placement(b, cursor));
      && Peek(g, WORLD_DIM, d) < PALETTE_SIZE
      && shown[Peek(g, WORLD_DIM, d)] == Model(p.voxels, WithAlpha(p.palette, p.alpha)).Colour(c)
  {
    var model := Model(p.voxels, WithAlpha(p.palette, p.alpha));
    assert ColoursKept(model, Placement(b, cursor), now);
    hide SolidBounds, HasRoom, StampOf, WithAlpha, Placement;
    assert Lands(model, Placement(b, cursor), c);
  }

  // A whole session: start-up, then any commands. When the last palette entry is free at start-up,
  // or none is, the debris colour takes the last one, which fills the world's palette: until a
  // clear, no command brings in another colour.
  method Session(start: VoxelWorld, startPalette: Palette, actors: nat, screen: Screen, ready: bool, e: Emission,
                 commands: seq<Command>) returns (s: Scene, ghost trace: seq<Snapshot>)
    requires start.Valid() && forall i :: 0 <= i < |commands| ==> Possible(commands[i], screen)
    modifies start.Repr
    ensures s.Valid() && s.world == start
    ensures |trace| == |commands| + 1 && Trace(e, commands, trace)
    ensures trace[0].world.voxels == old(start.Contents) && trace[0].live == []
    ensures trace[|commands|] == s.Now()
    ensures s.debris.live == [] ==> Bakes(s.world.Contents, s.renderer.Cells(), WORLD_DIM)
    ensures startPalette == old(start.palette) ==> s.OnePalette()
    ensures
      && (startPalette[PALETTE_SIZE - 1] == 0 || forall i :: 1 <= i < PALETTE_SIZE ==> startPalette[i] != 0)
      && (forall c <- commands :: !c.ClearWorld?) ==>
        s.Colours() == (old(start.palette)[PALETTE_SIZE - 1 := DEBRIS_COLOUR], PALETTE_SIZE)
  {
    hide Scene.Valid, VoxelWorld.Valid, Possible, Bakes, Grows, Trace;
    s := new Scene(start, startPalette, actors, screen, ready, e);
    UsedInRange(s);
    trace := s.Run(commands);
  }

  lemma UsedInRange(s: Scene)
    requires s.Valid()
    ensures s.world.paletteUsed <= PALETTE_SIZE
  {
  }

  lemma SpareIsNotAir(p: Palette, idx: int)
    requires Spare(p, idx)
    ensures 1 <= idx
  {
  }

  // Free slots were filled, everything else stayed.
  ghost predicate Grows(was: (Palette, nat), now: (Palette, nat)) {
    Extends(was.0, was.1, now.0, now.1)
  }

  lemma GrowsTrans(a: (Palette, nat), b: (Palette, nat), c: (Palette, nat))
    ensures Grows(a, b) && Grows(b, c) ==> Grows(a, c)
  {
    if Grows(a, b) && Grows(b, c) {
      ExtendsTrans(a.0, a.1, b.0, b.1, c.0, c.1);
    }
  }

  lemma FullStaysFull(was: (Palette, nat), now: (Palette, nat))
    ensures Grows(was, now) && was.1 == PALETTE_SIZE ==> now == was
  {
  }

  lemma StableRefl(d: seq<Body>)
    ensures SlotsStable(d, d)
  {
  }

  lemma StableTrans(d: seq<Body>, d': seq<Body>, d'': seq<Body>)
    requires SlotsStable(d, d') && SlotsStable(d', d'')
    ensures SlotsStable(d, d'')
  {
  }

  lemma FullUpload(m: Voxels, grid: seq<Word>, cells: seq<Word>)
    requires Bakes(m, grid, WORLD_DIM) && VoxelSized(cells) && |grid| == VOXELS
    requires forall i :: 0 <= i < VOXELS ==> cells[i] == if i < |grid| then grid[i] else 0
    ensures ShowsTerrain(cells, m)
  {
    assert cells == grid;
  }

  lemma ClearedBakes(g: seq<Word>)
    requires ShowsTerrain(g, map[])
    ensures Bakes(map[], g, WORLD_DIM)
  {
  }

  lemma NobodyInUse(d: seq<Body>)
    requires IdsMatch([], d)
    ensures InUse(d) == {}
  {
  }

  // What placing a parsed model does to the painted world.
  ghost predicate Placed(p: Parsed, cursor: Cell, was: Canvas, now: Canvas) {
    |p.alpha| == 256 &&
    forall b :: SolidBounds(p.voxels, b) ==>
      var model := Model(p.voxels, WithAlpha(p.palette, p.alpha));
      && NearestPlacement(b, cursor, Placement(b, cursor))
      && StampOf(was, model, Placement(b, cursor), now)
      && (ColoursKept(model, Placement(b, cursor), now) <==> HasRoom(was, model, Placement(b, cursor)))
  }

  lemma PlacedHolds(p: Parsed, palette: Palette, cursor: Cell, was: Canvas, now: Canvas)
    requires |p.alpha| == 256 && palette == WithAlpha(p.palette, p.alpha)
    requires forall b :: SolidBounds(p.voxels, b) ==>
      var model := Model(p.voxels, palette);
      && NearestPlacement(b, cursor, Placement(b, cursor))
      && StampOf(was, model, Placement(b, cursor), now)
      && (ColoursKept(model, Placement(b, cursor), now) <==> HasRoom(was, model, Placement(b, cursor)))
    ensures Placed(p, cursor, was, now)
  {
    hide StampOf, ColoursKept, HasRoom, Placement, NearestPlacement, SolidBounds, WithAlpha;
  }

  lemma IdsMatchMoved(live: seq<DebrisChunk>, d: seq<Body>, d': seq<Body>)
    requires IdsMatch(live, d) && InUse(d') == InUse(d)
    ensures IdsMatch(live, d')
  {
  }

  lemma {:induction false} FewerSurvive(live: seq<DebrisChunk>, d: seq<Body>, dt: real)
    ensures |Survivors(live, d, dt)| <= |live|
  {
    if live != [] {
      FewerSurvive(live[..|live| - 1], d, dt);
    }
  }

  lemma JobCount(live: seq<DebrisChunk>, jobs: seq<DebrisChunk>, d: seq<Body>, m: Voxels)
    requires FrameJobs(live, jobs, d, m)
    ensures |AllFinished(jobs)| == |live|
  {
  }

  // Exactly the first pieces that can become chunks are new chunks.
  ghost predicate Shattered(f: Onset, live: seq<DebrisChunk>, d: seq<Body>)
    requires f.b.Valid()
  {
    && f.live <= live && |live| == |f.live| + Spawnable(f)
    && Spawned(live[|f.live|..], d, f.b.m, f.b.Pieces()[..Spawnable(f)])
  }

  // Reserving bodies between the onset and the fracture does not change what can be spawned.
  lemma GrownBy(f: Onset, reserved: PoolState, live: seq<DebrisChunk>, pool: PoolState)
    requires f.b.Valid() && Supply(reserved) == Supply(f.pool) && Fractured(f.(pool := reserved), live, pool)
    ensures Shattered(f, live, pool.slots) && f.live <= live && SlotsStable(reserved.slots, pool.slots)
  {
    hide Spawned, KeepsBodies, Blast.Pieces, Supply, SlotsStable;
    assert Spawnable(f.(pool := reserved)) == Spawnable(f);
  }

  // Every piece fits under the live cap and can have a body.
  ghost predicate AllSpawn(f: Onset)
    requires f.b.Valid()
  {
    |f.b.Pieces()| <= Min(Max(f.maxLive - |f.live|, 0), Supply(f.pool))
  }

  // The conservation law in terms a caller can check.
  lemma FitConserves(f: Onset, live: seq<DebrisChunk>, d: seq<Body>)
    requires f.b.Valid() && f.b.radius >= 0 && Shattered(f, live, d)
    ensures f.live <= live
    ensures Matter(AfterCarve(f.b.m, f.b.centre, f.b.radius), live) == Matter(f.b.m, f.live) <==> AllSpawn(f)
  {
    hide Spawned, AfterCarve, Matter, Blast.Pieces, Supply;
    BlastConserves(f.live, live, d, f.b, Spawnable(f));
  }

  // A ball that is not broken up loses its centre if its radius is 0, and nothing otherwise.
  lemma UnbrokenConserves(m: Voxels, live: seq<DebrisChunk>, hit: Cell, radius: int)
    requires !Shatters(hit, radius)
    ensures Matter(AfterCarve(m, hit, radius), live) == Matter(m, live) <==> !(radius == 0 && InGrid(hit) && hit in m)
  {
    CarveCount(m, hit, radius);
    var gone := CarvedCells(m, hit, radius);
    assert gone == {} <==> |gone| == 0;
    if radius == 0 {
      if InGrid(hit) && hit in m {
        assert Dist2(hit, hit) == 0;
        assert hit in gone;
      }
      forall c <- gone
        ensures c == hit
      {
        OnlyCentre(hit, c);
      }
    } else {
      forall c | c in gone
        ensures false
      {
        CarvedInBox(hit, radius, c);
      }
    }
  }

  lemma OnlyCentre(centre: Cell, c: Cell)
    requires Carved(centre, 0, c)
    ensures c == centre
  {
    CarvedInBox(centre, 0, c);
  }

  lemma CarveBoxInGrid(hit: Cell, radius: int)
    ensures BoxInGrid(CarveBox(hit, radius))
  {
  }

  lemma CarveKeeps(g: seq<Word>, now: seq<Word>, m: Voxels, live: seq<DebrisChunk>, hit: Cell, radius: int)
    requires Consistent(g, m, live)
    requires Cleared(g, now, AfterCarve(m, hit, radius), CarveBox(hit, radius))
    ensures Consistent(now, AfterCarve(m, hit, radius), live)
  {
    hide Consistent, Cleared;
    forall c | InGrid(c) && !InBox(CarveBox(hit, radius), c)
      ensures At(AfterCarve(m, hit, radius), c) == At(m, c)
    {
      if Carved(hit, radius, c) {
        CarvedInBox(hit, radius, c);
      }
    }
    UploadKeeps(g, now, m, AfterCarve(m, hit, radius), live, CarveBox(hit, radius));
  }
}
