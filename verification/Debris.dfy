// The debris field: live fracture chunks, their bodies, and their overlay in the GPU grid.
module Debris {
  import opened Grid
  import opened Bricks
  import opened Palettes
  import opened Reprojection
  import opened Terrain
  import opened VoxelWorlds
  import opened Physics
  import opened DebrisChunks
  import opened Rendering
  import opened Overlay
  import opened LiveChunks
  import opened Repaint
  import opened Fracture
  import opened Capture

  // The new chunks hold the pieces one to one, each shown where it was cut out, and are new.
  ghost predicate Spawned(added: seq<DebrisChunk>, d: seq<Body>, m: Voxels, pieces: seq<set<Cell>>) {
    && |added| == |pieces|
    && forall i :: 0 <= i < |added| ==>
         && Slot(d, added[i].id) && !added[i].hasPrev && added[i].age == 0.0
         && Shows(added[i], d[added[i].id].pose, m, pieces[i]) && FitsBody(added[i], d[added[i].id])
  }

  // The body's half extent is the chunk's greatest one.
  ghost predicate FitsBody(t: DebrisChunk, b: Body) {
    IsExtent(b.half, t.localC.x, t.localC.y, t.localC.z)
  }

  function SumSolid(chunks: seq<DebrisChunk>): nat {
    if chunks == [] then 0 else SumSolid(chunks[..|chunks| - 1]) + chunks[|chunks| - 1].solidCount
  }

  lemma {:induction false} SpawnedSizes(added: seq<DebrisChunk>, d: seq<Body>, m: Voxels, pieces: seq<set<Cell>>)
    requires Spawned(added, d, m, pieces)
    ensures SumSolid(added) == TotalSize(pieces)
  {
    if added != [] {
      var n := |added| - 1;
      assert Shows(added[n], d[added[n].id].pose, m, pieces[n]);
      SpawnedSizes(added[..n], d, m, pieces[..n]);
    }
  }

  lemma {:induction false} PiecesPrefix(b: Blast, next: Cell, end: Cell)
    requires b.Valid() && b.Cursor(next) && b.Cursor(end) && (Precedes(next, end) || next == end)
    ensures b.PiecesBefore(next) <= b.PiecesBefore(end)
    decreases end.z, end.y, end.x
  {
    if next != end {
      if end.x > 0 {
        PiecesPrefix(b, next, end.(x := end.x - 1));
      } else if end.y > 0 {
        PiecesPrefix(b, next, Cell(b.n.x, end.y - 1, end.z));
      } else {
        PiecesPrefix(b, next, Cell(0, b.n.y, end.z - 1));
      }
    }
  }

  // A slot taken from the pool joins as a new chunk; everything shown before stays as it was.
  lemma SpawnStep(base: seq<DebrisChunk>, added: seq<DebrisChunk>, d: seq<Body>, d': seq<Body>, m: Voxels,
                  pieces: seq<set<Cell>>, t: DebrisChunk, s: set<Cell>)
    requires IdsMatch(base + added, d) && Spawned(added, d, m, pieces)
    requires Slot(d', t.id) && !t.hasPrev && t.age == 0.0 && Shows(t, d'[t.id].pose, m, s) && FitsBody(t, d'[t.id])
    requires t.id !in InUse(d) && InUse(d') == InUse(d) + {t.id} && |d| <= |d'|
    requires forall i :: 0 <= i < |d| && i != t.id ==> d'[i] == d[i]
    ensures IdsMatch(base + (added + [t]), d') && Spawned(added + [t], d', m, pieces + [s])
  {
    var was := base + added;
    assert base + (added + [t]) == was + [t];
    IdsMatchAdd(was, d, d', t);
    hide InUse, Shows, IdsMatch;
    IdsInUse(was, d);
    forall i | 0 <= i < |added|
      ensures d'[added[i].id] == d[added[i].id] && Slot(d', added[i].id)
    {
      assert was[|base| + i] == added[i];
    }
  }

  // The carve box is not empty and there is something to break.
  predicate Shatters(hit: Cell, radius: int) {
    radius > 0 && !EmptyBox(CarveBox(hit, radius))
  }

  function BlastOf(m: Voxels, hit: Cell, radius: int, scale: real): (b: Blast)
    requires Shatters(hit, radius)
    ensures b.Valid() && b.m == m && b.centre == hit && b.radius == radius > 0 && b.EvenlySplit(scale)
  {
    var k := CarveBox(hit, radius);
    var n := Cell(Splits(k.x1 - k.x0, scale), Splits(k.y1 - k.y0, scale), Splits(k.z1 - k.z0, scale));
    SplitsEvenly(Blast(m, hit, radius, n), scale);
    Blast(m, hit, radius, n)
  }

  lemma SpawnedNone(d: seq<Body>, m: Voxels)
    ensures Spawned([], d, m, [])
  {
  }

  // The pool has a slot for every chunk there may be, if enough actors could be made.
  ghost predicate Roomy(was: PoolState, d: seq<Body>, maxLive: int) {
    |PooledSlots(was.slots)| + was.left >= maxLive ==> |PooledSlots(d)| >= maxLive
  }

  // Where a fracture begins.
  datatype Onset = Onset(live: seq<DebrisChunk>, pool: PoolState, maxLive: int, b: Blast)

  // The parked bodies are enough to reach the live cap.
  predicate Reserved(f: Onset) {
    |f.live| + |f.pool.free| >= f.maxLive
  }

  // What the spawning loops keep: the new chunks are the pieces of the parts before `next`.
  ghost predicate Progress(f: Onset, live: seq<DebrisChunk>, pool: PoolState, next: Cell)
    requires f.b.Valid() && f.b.Cursor(next)
  {
    && ChunksValid(live) && f.maxLive >= 0 && PoolValid(pool.slots, pool.free) && IdsMatch(live, pool.slots)
    && f.live <= live && |live| == |f.live| + |f.b.PiecesBefore(next)| <= Max(|f.live|, f.maxLive)
    && Spawned(live[|f.live|..], pool.slots, f.b.m, f.b.PiecesBefore(next))
    && SlotsStable(f.pool.slots, pool.slots) && KeepsBodies(f.live, f.pool.slots, pool.slots)
    && |live| + Supply(pool) == |f.live| + Supply(f.pool)
    && (Reserved(f) ==> |live| + |pool.free| >= f.maxLive && |pool.slots| == |f.pool.slots|)
  }

  lemma ProgressStart(f: Onset)
    requires f.b.Valid() && ChunksValid(f.live) && f.maxLive >= 0
    requires PoolValid(f.pool.slots, f.pool.free) && IdsMatch(f.live, f.pool.slots)
    ensures Progress(f, f.live, f.pool, Cell(0, 0, 0))
  {
    assert f.live[|f.live|..] == [];
  }

  // What one part adds.
  ghost function Gain(b: Blast, s: Cell, stop: bool): seq<set<Cell>>
    requires b.Valid() && 0 <= s.x && 0 <= s.y && 0 <= s.z
  {
    if stop || b.Captured(s) == {} then [] else [b.Captured(s)]
  }

  // One more part was looked at.
  lemma ProgressStep(f: Onset, live: seq<DebrisChunk>, pool: PoolState, live': seq<DebrisChunk>, pool': PoolState,
                     s: Cell, stop: bool)
    requires f.b.Valid() && 0 <= s.x < f.b.n.x && 0 <= s.y < f.b.n.y && 0 <= s.z < f.b.n.z && |live| < f.maxLive
    requires Progress(f, live, pool, s)
    requires ChunksValid(live') && PoolValid(pool'.slots, pool'.free) && IdsMatch(live', pool'.slots) && live <= live'
    requires SlotsStable(pool.slots, pool'.slots) && KeepsBodies(live, pool.slots, pool'.slots)
    requires pool.free != [] ==> !stop && |pool'.slots| == |pool.slots|
    requires pool.free != [] ==> |live'| + |pool'.free| == |live| + |pool.free|
    requires |live'| + Supply(pool') == |live| + Supply(pool)
    requires |live'| == |live| + |Gain(f.b, s, stop)|
    requires Spawned(live'[|f.live|..], pool'.slots, f.b.m, f.b.PiecesBefore(s) + Gain(f.b, s, stop))
    ensures stop ==> !Reserved(f) && Progress(f, live', pool', s)
    ensures !stop ==> Progress(f, live', pool', s.(x := s.x + 1))
  {
    hide Spawned, PoolValid, IdsMatch, ChunksValid, Blast.Captured;
    KeepsTrans(f.live, live, f.pool.slots, pool.slots, pool'.slots);
    assert f.b.PiecesBefore(s) + [] == f.b.PiecesBefore(s);
  }

  lemma ProgressFacts(f: Onset, live: seq<DebrisChunk>, pool: PoolState, next: Cell)
    requires f.b.Valid() && f.b.Cursor(next) && Progress(f, live, pool, next)
    ensures ChunksValid(live) && f.maxLive >= 0 && PoolValid(pool.slots, pool.free) && IdsMatch(live, pool.slots)
    ensures f.live <= live && |live| == |f.live| + |f.b.PiecesBefore(next)| <= Max(|f.live|, f.maxLive)
    ensures Spawned(live[|f.live|..], pool.slots, f.b.m, f.b.PiecesBefore(next))
    ensures SlotsStable(f.pool.slots, pool.slots) && KeepsBodies(f.live, f.pool.slots, pool.slots)
    ensures |live| + Supply(pool) == |f.live| + Supply(f.pool)
    ensures Reserved(f) ==> |pool.slots| == |f.pool.slots|
  {
  }

  lemma ProgressWrap(f: Onset, live: seq<DebrisChunk>, pool: PoolState, next: Cell, next': Cell)
    requires f.b.Valid() && f.b.Cursor(next) && f.b.Cursor(next') && Progress(f, live, pool, next)
    requires || (next' == Cell(0, next.y + 1, next.z) && next.x == f.b.n.x)
             || (next' == Cell(0, 0, next.z + 1) && next.x == 0 && next.y == f.b.n.y)
    ensures Progress(f, live, pool, next')
  {
    assert f.b.PiecesBefore(next') == f.b.PiecesBefore(next);
  }

  // How many pieces become chunks: no more than there are, than fit under the live cap, and than
  // bodies can be had for.
  ghost function Spawnable(f: Onset): nat
    requires f.b.Valid()
  {
    Min(|f.b.Pieces()|, Min(Max(f.maxLive - |f.live|, 0), Supply(f.pool)))
  }

  // The outcome of a fracture: exactly the first pieces that can become chunks have done so, and
  // with enough parked bodies no actor was made.
  ghost predicate Fractured(f: Onset, live: seq<DebrisChunk>, pool: PoolState)
    requires f.b.Valid()
  {
    && f.live <= live && |live| == |f.live| + Spawnable(f)
    && Spawned(live[|f.live|..], pool.slots, f.b.m, f.b.Pieces()[..Spawnable(f)])
    && SlotsStable(f.pool.slots, pool.slots) && KeepsBodies(f.live, f.pool.slots, pool.slots)
    && Supply(pool) == Supply(f.pool) - Spawnable(f)
    && (Reserved(f) ==> |pool.slots| == |f.pool.slots|)
  }

  // The split into parts n of the carve box k that the loops of a fracture go through.
  ghost predicate Breaking(f: Onset, m: Voxels, hit: Cell, radius: nat, k: Box, n: Cell, maxLive: int) {
    && f.b.Valid() && f.b.m == m && f.b.n == n && f.b.centre == hit && f.b.radius == radius
    && k == CarveBox(hit, radius) && f.maxLive == maxLive
  }

  lemma BlastBreaks(f: Onset, m: Voxels, hit: Cell, radius: int, scale: real)
    requires Shatters(hit, radius) && f.b == BlastOf(m, hit, radius, scale)
    ensures var k := CarveBox(hit, radius);
      var n := Cell(Splits(k.x1 - k.x0, scale), Splits(k.y1 - k.y0, scale), Splits(k.z1 - k.z0, scale));
      Breaking(f, m, hit, radius, k, n, f.maxLive)
  {
  }

  lemma NoneAllowed(f: Onset)
    requires f.b.Valid() && f.maxLive <= 0
    ensures Fractured(f, f.live, f.pool)
  {
    assert f.live[|f.live|..] == [] && f.b.Pieces()[..0] == [];
    SpawnedNone(f.pool.slots, f.b.m);
    hide Spawned, Blast.Pieces;
  }

  lemma StopHere(f: Onset, live: seq<DebrisChunk>, pool: PoolState, next: Cell)
    requires f.b.Valid() && f.b.Cursor(next) && Progress(f, live, pool, next)
    requires next.z == f.b.n.z || |live| >= f.maxLive || Supply(pool) == 0
    ensures Fractured(f, live, pool)
    ensures ChunksValid(live) && PoolValid(pool.slots, pool.free) && IdsMatch(live, pool.slots)
  {
    hide Spawned, SlotsStable, KeepsBodies, PoolValid, IdsMatch, ChunksValid;
    PiecesPrefix(f.b, next, Cell(0, 0, f.b.n.z));
    assert |f.b.PiecesBefore(next)| == Spawnable(f);
    assert f.b.Pieces()[..Spawnable(f)] == f.b.PiecesBefore(next);
  }

  lemma WithBody(t: DebrisChunk, id: int, pose: Pose, m: Voxels, s: set<Cell>)
    requires Shows(t, pose, m, s)
    ensures Shows(t.(id := id), pose, m, s) && ChunkShape(t.(id := id))
    ensures s != {} ==> t.solidCount > 0
  {
    forall c
      ensures Sample(t.(id := id), pose, c) == Sample(t, pose, c)
    {
      assert LocalCell(t.(id := id), pose, c) == LocalCell(t, pose, c);
    }
  }

  lemma NewIsValid(live: seq<DebrisChunk>, t: DebrisChunk)
    requires ChunksValid(live) && ChunkShape(t) && t.solidCount > 0 && !t.hasPrev && t.age == 0.0
    ensures ChunksValid(live + [t])
  {
    hide ChunkShape;
  }

  class DebrisField {
    var debrisMat: Byte
    var maxLive: int
    var scale: real
    var live: seq<DebrisChunk>

    ghost predicate Valid()
      reads this
    {
      ChunksValid(live) && maxLive >= 0
    }

    // The layers this field works on are in order and do not share state.
    ghost predicate Ready(world: VoxelWorld, physics: PhysicsWorld, renderer: Renderer)
      reads world, world.Repr, renderer.Repr()
    {
      && world.Valid() && renderer.Valid() && world.Repr !! renderer.Repr()
      && this !in world.Repr && physics !in world.Repr
    }

    lemma ReadyMeans(world: VoxelWorld, physics: PhysicsWorld, renderer: Renderer)
      requires Ready(world, physics, renderer)
      ensures this !in world.Repr && this !in renderer.Repr() && physics !in world.Repr && physics !in renderer.Repr()
    {
    }

    lemma ValidMeans()
      ensures Valid() <==> ChunksValid(live) && maxLive >= 0
    {
    }

    constructor (debrisMaterial: Byte)
      ensures Valid() && live == [] && debrisMat == debrisMaterial && maxLive == 256 && scale == 1.0
    {
      debrisMat, maxLive, scale, live := debrisMaterial, 256, 1.0, [];
    }

    method SetMaxLive(n: int)
      requires Valid()
      modifies this`maxLive
      ensures Valid() && maxLive == Max(n, 0)
    {
      maxLive := if n > 0 then n else 0;
    }

    method SetScale(s: real)
      modifies this`scale
      ensures scale == if s > 0.0 then s else 0.0
    {
      scale := if s > 0.0 then s else 0.0;
    }

    // Once the pool has been sized to the live cap, every spawn below the cap finds a parked
    // body: no new actor is created.
    method ReservePool(physics: PhysicsWorld)
      requires Valid() && physics.Valid() && IdsMatch(live, physics.dynamics)
      modifies physics
      ensures physics.Valid() && IdsMatch(live, physics.dynamics)
      ensures old(physics.dynamics) <= physics.dynamics
      ensures Supply(physics.Pool()) == old(Supply(physics.Pool()))
      // the cap is reached whenever the pool and the actors still to be made allow it
      ensures |live| + |physics.freeList| >= maxLive <==> |live| + old(Supply(physics.Pool())) >= maxLive
      ensures Roomy(old(physics.Pool()), physics.dynamics, maxLive)
    {
      PoolAccounting(physics.dynamics, physics.freeList);
      LiveCount(live, physics.dynamics);
      physics.ReservePool(maxLive);
      PoolAccounting(physics.dynamics, physics.freeList);
      LiveCount(live, physics.dynamics);
    }

    // Captures one part of the blast and gives it a body; `stop` says the caller must give up.
    method SpawnPart(world: VoxelWorld, physics: PhysicsWorld, centre: Cell, radius: nat, k: Box,
                     ghost base: seq<DebrisChunk>, ghost pieces: seq<set<Cell>>) returns (stop: bool)
      requires Valid() && world.Valid() && physics.Valid()
      requires k.x0 <= k.x1 && k.y0 <= k.y1 && k.z0 <= k.z1
      requires base <= live && IdsMatch(live, physics.dynamics)
      requires Spawned(live[|base|..], physics.dynamics, world.Contents, pieces)
      modifies this`live, physics
      ensures Valid() && physics.Valid() && base <= live && old(live) <= live && IdsMatch(live, physics.dynamics)
      ensures SlotsStable(old(physics.dynamics), physics.dynamics)
      ensures KeepsBodies(old(live), old(physics.dynamics), physics.dynamics)
      ensures old(physics.freeList) != [] ==>
        && !stop && |physics.dynamics| == |old(physics.dynamics)|
        && |live| + |physics.freeList| == |old(live)| + |old(physics.freeList)|
      ensures |live| + Supply(physics.Pool()) == |old(live)| + old(Supply(physics.Pool()))
      ensures var piece := CapturedIn(world.Contents, centre, radius, k);
        && (stop ==> piece != {} && Supply(physics.Pool()) == 0)
        && |live| == |old(live)| + (if stop || piece == {} then 0 else 1)
        && Spawned(live[|base|..], physics.dynamics, world.Contents,
                   pieces + if stop || piece == {} then [] else [piece])
    {
      hide VoxelWorld.Valid, PoolValid, IdsMatch, Spawned, Shows, CapturedIn, InUse, ChunkShape, ChunksValid;
      ghost var m, d := world.Contents, physics.dynamics;
      assert base + live[|base|..] == live && pieces + [] == pieces;
      var found, mn, t := CapturePart(world, centre, radius, k, debrisMat);
      if !found {
        return false;
      }
      var p := SpawnPose(t, mn);
      assert p == Pose(p.px, p.py, p.pz, 0.0, 0.0, 0.0, 1.0);
      var id := physics.AcquireBox(p.px, p.py, p.pz, t.localC.x, t.localC.y, t.localC.z);
      if id < 0 {
        return true;
      }
      WithBody(t, id, p, m, CapturedIn(m, centre, radius, k));
      t := t.(id := id);
      OthersKept(live, d, physics.dynamics, id);
      SpawnStep(base, live[|base|..], d, physics.dynamics, m, pieces, t, CapturedIn(m, centre, radius, k));
      assert base + (live[|base|..] + [t]) == live + [t];
      assert (live + [t])[|base|..] == live[|base|..] + [t];
      NewIsValid(live, t);
      live := live + [t];
      return false;
    }

    // Breaks the ball into chunks before it is carved. Exactly the pieces that fit under the live
    // cap, and for which a body can be had, are spawned, in loop order.
    method SpawnFromCarve(world: VoxelWorld, physics: PhysicsWorld, hit: Cell, radius: int)
      requires Valid() && world.Valid() && physics.Valid() && IdsMatch(live, physics.dynamics)
      requires this !in world.Repr && physics !in world.Repr
      modifies this`live, physics
      ensures Valid() && physics.Valid() && IdsMatch(live, physics.dynamics)
      ensures Shatters(hit, radius) ==>
        var b := BlastOf(world.Contents, hit, radius, scale);
        b.EvenlySplit(scale) && Fractured(Onset(old(live), old(physics.Pool()), maxLive, b), live, physics.Pool())
      ensures !Shatters(hit, radius) ==> live == old(live) && physics.Pool() == old(physics.Pool())
    {
      hide PoolValid, IdsMatch, Fractured, VoxelWorld.Valid, CarveBox, Splits, Blast.EvenlySplit, BlastOf, ChunksValid;
      if maxLive <= 0 || radius <= 0 {
        if Shatters(hit, radius) {
          NoneAllowed(Onset(live, physics.Pool(), maxLive, BlastOf(world.Contents, hit, radius, scale)));
        }
        return;
      }
      var k := CarveBox(hit, radius);
      if EmptyBox(k) {
        return;
      }
      var n := Cell(Splits(k.x1 - k.x0, scale), Splits(k.y1 - k.y0, scale), Splits(k.z1 - k.z0, scale));
      ghost var f := Onset(live, physics.Pool(), maxLive, BlastOf(world.Contents, hit, radius, scale));
      BlastBreaks(f, world.Contents, hit, radius, scale);
      SpawnParts(world, physics, hit, radius, k, n, f);
    }

    // The partition loops of SpawnFromCarve.
    method SpawnParts(world: VoxelWorld, physics: PhysicsWorld, hit: Cell, radius: nat, k: Box, n: Cell, ghost f: Onset)
      requires Valid() && world.Valid() && physics.Valid() && IdsMatch(live, physics.dynamics)
      requires this !in world.Repr && physics !in world.Repr
      requires f.live == live && f.pool == physics.Pool() && Breaking(f, world.Contents, hit, radius, k, n, maxLive)
      modifies this`live, physics
      ensures Valid() && physics.Valid() && IdsMatch(live, physics.dynamics)
      ensures Fractured(f, live, physics.Pool())
    {
      hide VoxelWorld.Valid, Progress, CarveBox, Fractured, PoolValid, IdsMatch, ChunksValid;
      ProgressStart(f);
      for sz := 0 to n.z
        invariant Progress(f, live, physics.Pool(), Cell(0, 0, sz)) && world.Valid()
      {
        for sy := 0 to n.y
          invariant Progress(f, live, physics.Pool(), Cell(0, sy, sz)) && world.Valid()
        {
          ghost var at;
          var stop;
          stop, at := SpawnRow(world, physics, hit, radius, k, n, sy, sz, f);
          if stop {
            StopHere(f, live, physics.Pool(), at);
            return;
          }
        }
        ProgressWrap(f, live, physics.Pool(), Cell(0, n.y, sz), Cell(0, 0, sz + 1));
      }
      StopHere(f, live, physics.Pool(), Cell(0, 0, n.z));
    }

    method SpawnRow(world: VoxelWorld, physics: PhysicsWorld, hit: Cell, radius: nat, k: Box, n: Cell, sy: nat, sz: nat,
                    ghost f: Onset)
      returns (stop: bool, ghost at: Cell)
      requires world.Valid() && this !in world.Repr && physics !in world.Repr
      requires Breaking(f, world.Contents, hit, radius, k, n, maxLive)
      requires sy < n.y && sz < n.z && Progress(f, live, physics.Pool(), Cell(0, sy, sz))
      modifies this`live, physics
      ensures stop ==> at.y == sy && at.z == sz && 0 <= at.x < n.x && Progress(f, live, physics.Pool(), at)
      ensures stop ==> |live| >= maxLive || Supply(physics.Pool()) == 0
      ensures !stop ==> Progress(f, live, physics.Pool(), Cell(0, sy + 1, sz))
    {
      hide VoxelWorld.Valid, Progress, CarveBox;
      for sx := 0 to n.x
        invariant Progress(f, live, physics.Pool(), Cell(sx, sy, sz)) && world.Valid()
      {
        at := Cell(sx, sy, sz);
        stop := SpawnTurn(world, physics, hit, radius, k, n, Cell(sx, sy, sz), f);
        if stop {
          return;
        }
      }
      ProgressWrap(f, live, physics.Pool(), Cell(n.x, sy, sz), Cell(0, sy + 1, sz));
      return false, Cell(0, sy, sz);
    }

    // One turn of the innermost spawning loop; `stop` when the cap is reached or no body is left.
    method SpawnTurn(world: VoxelWorld, physics: PhysicsWorld, hit: Cell, radius: nat, k: Box, n: Cell, s: Cell,
                     ghost f: Onset) returns (stop: bool)
      requires world.Valid() && Breaking(f, world.Contents, hit, radius, k, n, maxLive)
      requires 0 <= s.x < n.x && 0 <= s.y < n.y && 0 <= s.z < n.z
      requires Progress(f, live, physics.Pool(), s)
      modifies this`live, physics
      ensures stop ==> Progress(f, live, physics.Pool(), s)
      ensures stop ==> |live| >= maxLive || Supply(physics.Pool()) == 0
      ensures !stop ==> Progress(f, live, physics.Pool(), s.(x := s.x + 1))
    {
      if |live| >= maxLive {
        return true;
      }
      ghost var was, before := live, physics.Pool();
      ProgressFacts(f, live, before, s);
      SubBoxInside(k, n, s);
      hide VoxelWorld.Valid, PoolValid, IdsMatch, Spawned, KeepsBodies, SlotsStable, ChunksValid, CapturedIn, SubBox,
           CarveBox, Progress, Supply;
      stop := SpawnPart(world, physics, hit, radius, SubBox(k, n, s), f.live, f.b.PiecesBefore(s));
      ProgressStep(f, was, before, live, physics.Pool(), s, stop);
    }

    // Erases a doomed chunk from the grid and parks its body.
    method CullDead(world: VoxelWorld, physics: PhysicsWorld, renderer: Renderer, t: DebrisChunk, ghost g: seq<Word>,
                    ghost was: seq<DebrisChunk>, ghost d: seq<Body>, ghost dt: real, ghost k: nat, ghost i: nat)
      requires physics.Valid() && Ready(world, physics, renderer)
      requires Culling(was, d, dt, live, physics.dynamics, k, i) && i < |live|
      requires k < |was| && Doomed(was[k], d, dt) && t == was[k].(age := t.age)
      requires GridCulling(g, renderer.Cells(), world.Contents, was, d, dt, live, k)
      modifies physics, renderer.voxelPtr, renderer.brickPtr, renderer`palette
      modifies renderer.history`accumFrame, renderer.history`accHave, renderer.history`epoch
      ensures physics.Valid() && Ready(world, physics, renderer) && renderer.palette == old(renderer.palette)
      ensures Culling(was, d, dt, live[..i] + live[i + 1..], physics.dynamics, k + 1, i)
      ensures GridCulling(g, renderer.Cells(), world.Contents, was, d, dt, live[..i] + live[i + 1..], k + 1)
    {
      CullingHere(was, d, dt, live, physics.dynamics, k, i);
      assert t.hasPrev ==> BoxInGrid(t.prev);
      hide Culling, GridCulling, Cleared, InUse, PoolValid, VoxelWorld.Valid, Renderer.Valid, Survivors, Doomed,
           IdsMatch, ChunksValid, SlotsStable;
      ghost var now, cells := physics.dynamics, renderer.Cells();
      if t.hasPrev {
        ClearBoxToTerrain(world, renderer, t.prev);
      }
      physics.ReleaseBox(t.id);
      CullingDrop(was, d, dt, live, now, physics.dynamics, k, i);
      GridDrop(g, cells, renderer.Cells(), world.Contents, was, d, dt, live, k, i);
    }

    // One turn of the culling loop; `next` is where the loop goes on.
    method CullTurn(world: VoxelWorld, physics: PhysicsWorld, renderer: Renderer, dt: real, i: nat, ghost g: seq<Word>,
                    ghost was: seq<DebrisChunk>, ghost d: seq<Body>, ghost k: nat) returns (next: nat)
      requires physics.Valid() && Ready(world, physics, renderer)
      requires Culling(was, d, dt, live, physics.dynamics, k, i) && i < |live|
      requires GridCulling(g, renderer.Cells(), world.Contents, was, d, dt, live, k)
      modifies this`live, physics, renderer.voxelPtr, renderer.brickPtr, renderer`palette
      modifies renderer.history`accumFrame, renderer.history`accHave, renderer.history`epoch
      ensures physics.Valid() && Ready(world, physics, renderer) && renderer.palette == old(renderer.palette)
      ensures |live| - next == |old(live)| - i - 1
      ensures Culling(was, d, dt, live, physics.dynamics, k + 1, next)
      ensures GridCulling(g, renderer.Cells(), world.Contents, was, d, dt, live, k + 1)
    {
      hide *;
      ReadyMeans(world, physics, renderer);
      CullingHere(was, d, dt, live, physics.dynamics, k, i);
      DoomedTest(physics, live[i], dt);
      var t := live[i].(age := live[i].age + dt);
      var y := physics.BodyPosY(t.id);
      if y.None? || y.value < KILL_Y || t.age > TTL_SECONDS {
        CullDead(world, physics, renderer, t, g, was, d, dt, k, i);
        live := live[..i] + live[i + 1..];
        next := i;
      } else {
        CullingKeep(was, d, dt, live, physics.dynamics, k, i);
        GridKeep(g, renderer.Cells(), world.Contents, was, d, dt, live, k, i);
        live := live[i := t];
        next := i + 1;
      }
    }

    method CullLoop(world: VoxelWorld, physics: PhysicsWorld, renderer: Renderer, dt: real, ghost g: seq<Word>,
                    ghost was: seq<DebrisChunk>, ghost d: seq<Body>) returns (ghost k: nat, i: nat)
      requires physics.Valid() && Ready(world, physics, renderer)
      requires Culling(was, d, dt, live, physics.dynamics, 0, 0)
      requires GridCulling(g, renderer.Cells(), world.Contents, was, d, dt, live, 0)
      modifies this`live, physics, renderer.voxelPtr, renderer.brickPtr, renderer`palette
      modifies renderer.history`accumFrame, renderer.history`accHave, renderer.history`epoch
      ensures physics.Valid() && Ready(world, physics, renderer) && renderer.palette == old(renderer.palette)
      ensures i >= |live| && Culling(was, d, dt, live, physics.dynamics, k, i)
      ensures GridCulling(g, renderer.Cells(), world.Contents, was, d, dt, live, k)
    {
      hide *;
      k, i := 0, 0;
      while i < |live|
        invariant physics.Valid() && Ready(world, physics, renderer) && renderer.palette == old(renderer.palette)
        invariant Culling(was, d, dt, live, physics.dynamics, k, i)
        invariant GridCulling(g, renderer.Cells(), world.Contents, was, d, dt, live, k)
        decreases |live| - i
      {
        i := CullTurn(world, physics, renderer, dt, i, g, was, d, k);
        k := k + 1;
      }
    }

    // Culls the chunks that fell below the kill plane or ran out of time.
    method Cull(world: VoxelWorld, physics: PhysicsWorld, renderer: Renderer, dt: real)
      requires Valid() && physics.Valid() && IdsMatch(live, physics.dynamics)
      requires Ready(world, physics, renderer) && Consistent(renderer.Cells(), world.Contents, live)
      modifies this`live, physics, renderer.voxelPtr, renderer.brickPtr, renderer`palette
      modifies renderer.history`accumFrame, renderer.history`accHave, renderer.history`epoch
      ensures Valid() && physics.Valid() && IdsMatch(live, physics.dynamics)
      ensures Ready(world, physics, renderer) && Consistent(renderer.Cells(), world.Contents, live)
      ensures live == Survivors(old(live), old(physics.dynamics), dt)
      ensures |physics.dynamics| == |old(physics.dynamics)| && SlotsStable(old(physics.dynamics), physics.dynamics)
      ensures KeepsBodies(live, old(physics.dynamics), physics.dynamics)
      ensures CulledCells(old(renderer.Cells()), renderer.Cells(), world.Contents, old(live), old(physics.dynamics), dt)
      ensures renderer.palette == old(renderer.palette)
    {
      ghost var was, d, g := live, physics.dynamics, renderer.Cells();
      hide *;
      ValidMeans();
      CullingStart(was, d, dt);
      GridStart(g, world.Contents, was, d, dt);
      ghost var k;
      var i;
      k, i := CullLoop(world, physics, renderer, dt, g, was, d);
      CullingEnd(was, d, dt, live, physics.dynamics, k, i);
      GridEnd(g, renderer.Cells(), world.Contents, was, d, dt, live);
      ValidMeans();
    }

    // Reads the bodies' poses and computes where each chunk is now.
    method Aim(physics: PhysicsWorld) returns (jobItems: seq<nat>)
      requires Valid() && physics.Valid() && IdsMatch(live, physics.dynamics)
      modifies this`live
      ensures |live| == |old(live)| && forall i :: 0 <= i < |live| ==> Aimed(old(live)[i], live[i], physics.dynamics)
      // every live chunk has a body, so every chunk gets a job
      ensures |jobItems| == |live| && forall i :: 0 <= i < |live| ==> jobItems[i] == i
    {
      ghost var was, d := live, physics.dynamics;
      BodiesAreLive(live, d, physics.freeList);
      hide IdsMatch, InUse, LiveSlots, Aimed, PoolValid, Unit, ChunkShape, Live;
      var states := physics.EnumerateBodies();
      jobItems := [];
      for i := 0 to |live|
        invariant AimedUpTo(was, live, d, i)
        invariant |jobItems| == i && forall j :: 0 <= j < i ==> jobItems[j] == j
      {
        var aimed := AimChunk(live[i], states, d);
        if aimed.None? {
          assert false;
        } else {
          AimNext(was, live, d, i, aimed.value);
          live := live[i := aimed.value];
          jobItems := jobItems + [i];
        }
      }
    }

    // Builds every job's upload buffer; the jobs may run in any order.
    method BuildRegions(world: VoxelWorld, jobItems: seq<nat>)
      requires world.Valid() && this !in world.Repr
      requires |jobItems| == |live| && forall i :: 0 <= i < |live| ==> jobItems[i] == i && ChunkShape(live[i])
      modifies this`live
      ensures |live| == |old(live)| && forall i :: 0 <= i < |live| ==> Built(old(live)[i], live[i], world.Contents)
    {
      hide VoxelWorld.Valid, Built;
      ghost var was, m := live, world.Contents;
      var todo := set k | k in jobItems;
      while todo != {}
        invariant world.Valid() && world.Contents == m && |live| == |was| && forall k <- todo :: k < |live|
        invariant forall i :: 0 <= i < |live| && i !in todo ==> Built(was[i], live[i], m)
        invariant forall i :: i in todo ==> live[i] == was[i]
        decreases todo
      {
        var k :| k in todo;
        var t := live[k];
        var region := BuildChunkRegion(world, t);
        BuiltHolds(t, region, m);
        live := live[k := t.(region := region)];
        todo := todo - {k};
      }
    }

    // Uploads the jobs one after the other.
    method PaintAll(world: VoxelWorld, physics: PhysicsWorld, renderer: Renderer, jobItems: seq<nat>)
      requires Ready(world, physics, renderer)
      requires |jobItems| == |live| && forall i :: 0 <= i < |live| ==>
        jobItems[i] == i && Paintable(live[i], world.Contents)
      modifies this`live, renderer.voxelPtr, renderer.brickPtr, renderer`palette
      modifies renderer.history`accumFrame, renderer.history`accHave, renderer.history`epoch
      ensures Ready(world, physics, renderer) && renderer.palette == old(renderer.palette)
      ensures live == AllFinished(old(live))
      ensures PaintedAll(old(renderer.Cells()), renderer.Cells(), world.Contents, old(live))
    {
      ghost var jobs, g, m := live, renderer.Cells(), world.Contents;
      PaintedNone(g, m, jobs);
      hide VoxelWorld.Valid, Renderer.Valid, PaintedAll, PaintedOne, Paintable, RegionShows;
      for i := 0 to |jobItems|
        invariant Ready(world, physics, renderer) && renderer.palette == old(renderer.palette) && world.Contents == m
        invariant |live| == |jobs| && forall j :: 0 <= j < |live| ==>
          live[j] == if j < i then Finished(jobs[j]) else jobs[j]
        invariant PaintedAll(g, renderer.Cells(), m, jobs[..i])
      {
        ghost var mid := renderer.Cells();
        var t := live[jobItems[i]];
        assert BoxInGrid(t.cur) && (t.hasPrev ==> BoxInGrid(t.prev))
          && RegionShows(t.cur, t.region, t, m) by { PaintableMeans(t, m); }
        PaintChunk(world, renderer, t);
        PaintedNext(g, mid, renderer.Cells(), m, jobs, i);
        live := live[jobItems[i] := t.(prev := t.cur, hasPrev := true)];
      }
      assert jobs[..|jobs|] == jobs;
    }

    // One frame: cull, read the bodies, rebuild every chunk's picture and upload it.
    method Update(world: VoxelWorld, physics: PhysicsWorld, renderer: Renderer, dt: real)
      returns (ghost survivors: seq<DebrisChunk>, ghost culled: seq<Word>, ghost jobs: seq<DebrisChunk>)
      requires Valid() && physics.Valid() && IdsMatch(live, physics.dynamics)
      requires Ready(world, physics, renderer) && Consistent(renderer.Cells(), world.Contents, live)
      modifies this`live, physics, renderer.voxelPtr, renderer.brickPtr, renderer`palette
      modifies renderer.history`accumFrame, renderer.history`accHave, renderer.history`epoch
      ensures Valid() && physics.Valid() && IdsMatch(live, physics.dynamics)
      ensures Ready(world, physics, renderer) && Consistent(renderer.Cells(), world.Contents, live)
      ensures renderer.palette == old(renderer.palette) && SlotsStable(old(physics.dynamics), physics.dynamics)
      ensures survivors == Survivors(old(live), old(physics.dynamics), dt)
      ensures KeepsBodies(survivors, old(physics.dynamics), physics.dynamics)
      ensures CulledCells(old(renderer.Cells()), culled, world.Contents, old(live), old(physics.dynamics), dt)
      ensures Consistent(culled, world.Contents, survivors)
      ensures FrameJobs(survivors, jobs, physics.dynamics, world.Contents) && live == AllFinished(jobs)
      ensures PaintedAll(culled, renderer.Cells(), world.Contents, jobs)
      ensures OutlastFrame(old(live), old(physics.dynamics), dt, live)
    {
      ghost var was, d := live, physics.dynamics;
      hide OutlastFrame;
      Cull(world, physics, renderer, dt);
      survivors, culled, jobs := live, renderer.Cells(), [];
      if live == [] {
        SurvivorsOutlast(was, d, dt);
        return;
      }
      jobs := Redraw(world, physics, renderer);
      DrawnOutlast(was, d, dt, jobs, physics.dynamics, world.Contents);
    }

    // Aims every chunk and builds its picture.
    method Prepare(world: VoxelWorld, physics: PhysicsWorld) returns (jobItems: seq<nat>)
      requires Valid() && physics.Valid() && IdsMatch(live, physics.dynamics)
      requires world.Valid() && this !in world.Repr
      modifies this`live
      ensures FrameJobs(old(live), live, physics.dynamics, world.Contents)
      ensures |jobItems| == |live|
      ensures forall i :: 0 <= i < |live| ==> jobItems[i] == i && Paintable(live[i], world.Contents)
    {
      hide Aimed, Built, Paintable, FrameJobs, IdsMatch, VoxelWorld.Valid, PoolValid;
      ghost var was, d := live, physics.dynamics;
      jobItems := Aim(physics);
      ghost var aimed := live;
      AimedShape(was, aimed, d);
      BuildRegions(world, jobItems);
      BuiltPaintable(was, aimed, live, d, world.Contents);
    }

    // The rest of a frame, once the dead are gone.
    method Redraw(world: VoxelWorld, physics: PhysicsWorld, renderer: Renderer) returns (ghost jobs: seq<DebrisChunk>)
      requires Valid() && physics.Valid() && IdsMatch(live, physics.dynamics)
      requires Ready(world, physics, renderer) && Consistent(renderer.Cells(), world.Contents, live)
      modifies this`live, renderer.voxelPtr, renderer.brickPtr, renderer`palette
      modifies renderer.history`accumFrame, renderer.history`accHave, renderer.history`epoch
      ensures Valid() && IdsMatch(live, physics.dynamics)
      ensures Ready(world, physics, renderer) && Consistent(renderer.Cells(), world.Contents, live)
      ensures renderer.palette == old(renderer.palette)
      ensures FrameJobs(old(live), jobs, physics.dynamics, world.Contents) && live == AllFinished(jobs)
      ensures PaintedAll(old(renderer.Cells()), renderer.Cells(), world.Contents, jobs)
    {
      ghost var was, d, g, m := live, physics.dynamics, renderer.Cells(), world.Contents;
      hide Paintable, FrameJobs, PaintedAll, Consistent, IdsMatch, VoxelWorld.Valid, Renderer.Valid, PoolValid,
           ChunksValid, AllFinished;
      var jobItems := Prepare(world, physics);
      jobs := live;
      PaintAll(world, physics, renderer, jobItems);
      FrameDone(was, jobs, d, m, g, renderer.Cells());
    }

    // Puts every chunk's box back to terrain.
    method ClearPictures(world: VoxelWorld, physics: PhysicsWorld, renderer: Renderer)
      requires Valid() && Ready(world, physics, renderer) && Consistent(renderer.Cells(), world.Contents, live)
      modifies renderer.voxelPtr, renderer.brickPtr, renderer`palette
      modifies renderer.history`accumFrame, renderer.history`accHave, renderer.history`epoch
      ensures Ready(world, physics, renderer) && ShowsTerrain(renderer.Cells(), world.Contents)
      ensures renderer.palette == old(renderer.palette)
    {
      hide Consistent, ShowsTerrain, VoxelWorld.Valid, Cleared;
      assert live[0..] == live;
      for i := 0 to |live|
        invariant Ready(world, physics, renderer) && renderer.palette == old(renderer.palette)
        invariant Consistent(renderer.Cells(), world.Contents, live[i..])
      {
        ghost var g := renderer.Cells();
        if live[i].hasPrev {
          ClearBoxToTerrain(world, renderer, live[i].prev);
        }
        DropCleared(g, renderer.Cells(), world.Contents, live[i..], 0);
        assert live[i..][..0] + live[i..][1..] == live[i + 1..];
      }
      assert live[|live|..] == [];
      TerrainOnly(renderer.Cells(), world.Contents, []);
    }

    // Erases every chunk from the grid and forgets it.
    method ClearAll(world: VoxelWorld, physics: PhysicsWorld, renderer: Renderer)
      requires Valid() && physics.Valid() && Ready(world, physics, renderer)
      requires Consistent(renderer.Cells(), world.Contents, live)
      modifies this`live, physics, renderer.voxelPtr, renderer.brickPtr, renderer`palette
      modifies renderer.history`accumFrame, renderer.history`accHave, renderer.history`epoch
      ensures Valid() && physics.Valid() && live == [] && IdsMatch(live, physics.dynamics)
      ensures Ready(world, physics, renderer) && ShowsTerrain(renderer.Cells(), world.Contents)
      ensures renderer.palette == old(renderer.palette)
      ensures SlotsStable(old(physics.dynamics), physics.dynamics) && |physics.dynamics| == |old(physics.dynamics)|
      ensures PooledSlots(physics.dynamics) == PooledSlots(old(physics.dynamics))
    {
      hide Consistent, ShowsTerrain, VoxelWorld.Valid, PoolValid;
      ClearPictures(world, physics, renderer);
      physics.ClearDynamics();
      live := [];
    }
  }

  lemma DoomedTest(physics: PhysicsWorld, t: DebrisChunk, dt: real)
    ensures var y := physics.BodyPosY(t.id);
      Doomed(t, physics.dynamics, dt) <==> y.None? || y.value < KILL_Y || t.age + dt > TTL_SECONDS
  {
  }

  // The chunk at its body's pose, or nothing when the body is not among the simulated ones.
  method AimChunk(t: DebrisChunk, states: seq<BodyState>, ghost d: seq<Body>) returns (aimed: Option<DebrisChunk>)
    requires ChunkShape(t) && Slot(d, t.id) && Unit(d[t.id].pose)
    requires forall s <- states :: s.id == t.id ==> s.pose == d[t.id].pose
    ensures aimed.Some? <==> exists s <- states :: s.id == t.id
    ensures aimed.Some? ==> Aimed(t, aimed.value, d)
  {
    hide Aimed, TightBox, LocalCell, Unit, ChunkShape;
    var st := FindState(states, t.id);
    if st.None? {
      return None;
    }
    assert st.value == d[t.id].pose;
    var a := WorldAabb(t, st.value);
    AimedHolds(t, d, a);
    return Some(t.(pose := st.value, cur := a));
  }

  method FindState(states: seq<BodyState>, id: int) returns (p: Option<Pose>)
    ensures p.Some? ==> BodyState(id, p.value) in states
    ensures p.None? ==> forall s <- states :: s.id != id
  {
    for i := 0 to |states|
      invariant forall j :: 0 <= j < i ==> states[j].id != id
    {
      if states[i].id == id {
        return Some(states[i].pose);
      }
    }
    return None;
  }

  // ------------------------------------------------------------------------------------------
  // A frame in which a chunk's voxel is not on show
  // ------------------------------------------------------------------------------------------

  const SPOT := Cell(10, 10, 10)

  function OneVoxel(id: int): (t: DebrisChunk)
    ensures ChunkShape(t) && t.mats[0] != 0 && t.solidCount > 0 && !t.hasPrev && t.id == id
  {
    EmptyChunk(1, 1, 1).(mats := [1], solidCount := 1, id := id)
  }

  // Two chunks of one voxel each, next to each other in an empty world.
  method TwoNeighbours(physics: PhysicsWorld, field: DebrisField)
    requires physics.Valid() && physics.dynamics == [] && physics.freeList == [] && physics.actorsLeft == 2
    requires field.Valid()
    modifies physics, field
    ensures physics.Valid() && field.Valid() && IdsMatch(field.live, physics.dynamics) && |field.live| == 2
    ensures SingleVoxel(field.live[0], physics.dynamics, SPOT)
    ensures SingleVoxel(field.live[1], physics.dynamics, SPOT.(x := 11))
    ensures !field.live[0].hasPrev && !field.live[1].hasPrev
  {
    hide PoolValid, IdsMatch, ChunkShape;
    NobodyYet();
    var a := physics.AcquireBox(10.5, 10.5, 10.5, 0.5, 0.5, 0.5);
    IdsMatchAdd([], [], physics.dynamics, OneVoxel(a));
    ghost var d := physics.dynamics;
    var b := physics.AcquireBox(11.5, 10.5, 10.5, 0.5, 0.5, 0.5);
    assert [] + [OneVoxel(a)] == [OneVoxel(a)];
    IdsMatchAdd([OneVoxel(a)], d, physics.dynamics, OneVoxel(b));
    field.live := [OneVoxel(a), OneVoxel(b)];
    assert [OneVoxel(a)] + [OneVoxel(b)] == field.live;
  }

  lemma NobodyYet()
    ensures IdsMatch([], []) && InUse([]) == {}
  {
  }

  // After the frame the first chunk still has its voxel in the cell, which is shown empty.
  method HiddenVoxel() returns (renderer: Renderer, t: DebrisChunk)
    ensures renderer.Valid() && ChunkShape(t) && t.hasPrev && InBox(t.prev, SPOT)
    ensures Sample(t, t.pose, SPOT) != 0 && Peek(renderer.Cells(), WORLD_DIM, SPOT) == 0
  {
    hide PoolValid, IdsMatch, ChunkShape, Consistent, VoxelWorld.Valid, SingleVoxel, FrameJobs, PaintedAll, Sample,
         Renderer.Valid, ChunksValid;
    var world := new VoxelWorld();
    renderer := new Renderer(None, seq(VOXELS, _ => 0), EMPTY_PALETTE, ScreenSize(1, 1), false);
    var physics := new PhysicsWorld(2);
    var field := new DebrisField(1);
    NothingShown(renderer.Cells());
    TwoNeighbours(physics, field);
    ghost var live, g := field.live, renderer.Cells();
    TerrainOnly(g, world.Contents, live);
    ghost var jobs := field.Redraw(world, physics, renderer);
    PaddingHidesVoxel(live, jobs, physics.dynamics, world.Contents, g, renderer.Cells(), SPOT);
    VoxelsAreReached(live, jobs, physics.dynamics, world.Contents, 0, SPOT);
    FinishedSample(jobs[0], SPOT);
    t := field.live[0];
  }

  lemma NothingShown(g: seq<Word>)
    requires VoxelSized(g) && forall i :: 0 <= i < |g| ==> g[i] == 0
    ensures ShowsTerrain(g, map[])
  {
  }
}
