// Capturing the solid voxels of one part of a blast into a debris chunk.
module Capture {
  import opened Grid
  import opened Terrain
  import opened VoxelWorlds
  import opened Physics
  import opened Rotation
  import opened Vectors
  import opened DebrisChunks
  import opened Fracture

  // The sphere test on cell centres, as the fracture code evaluates it.
  function InSphere(centre: Cell, radius: int, c: Cell): bool {
    var dx := c.x as real + 0.5 - (centre.x as real + 0.5);
    var dy := c.y as real + 0.5 - (centre.y as real + 0.5);
    var dz := c.z as real + 0.5 - (centre.z as real + 0.5);
    dx * dx + dy * dy + dz * dz <= radius as real * radius as real
  }

  lemma RealSquare(a: int)
    ensures a as real * a as real == (a * a) as real
  {
  }

  // It agrees with the integer test of CarveSphere.
  lemma SpheresAgree(centre: Cell, radius: int, c: Cell)
    requires radius >= 0
    ensures InSphere(centre, radius, c) <==> InBall(centre, radius, c)
  {
    var dx, dy, dz := c.x - centre.x, c.y - centre.y, c.z - centre.z;
    RealSquare(dx);
    RealSquare(dy);
    RealSquare(dz);
    RealSquare(radius);
    assert c.x as real + 0.5 - (centre.x as real + 0.5) == dx as real;
    assert c.y as real + 0.5 - (centre.y as real + 0.5) == dy as real;
    assert c.z as real + 0.5 - (centre.z as real + 0.5) == dz as real;
  }

  // Captured cells met before `next`.
  ghost function CapturedBefore(m: Voxels, centre: Cell, radius: int, k: Box, next: Cell): set<Cell> {
    set c | c in CapturedIn(m, centre, radius, k) && Precedes(c, next)
  }

  lemma CapturedStep(m: Voxels, centre: Cell, radius: int, k: Box, c: Cell)
    requires InBox(k, c)
    ensures CapturedBefore(m, centre, radius, k, c.(x := c.x + 1))
         == CapturedBefore(m, centre, radius, k, c) + if c in m && InBall(centre, radius, c) then {c} else {}
    ensures c !in CapturedBefore(m, centre, radius, k, c)
  {
    hide InBall;
    forall d
      ensures d in CapturedBefore(m, centre, radius, k, c.(x := c.x + 1)) <==>
        d in CapturedBefore(m, centre, radius, k, c) || (d == c && c in m && InBall(centre, radius, c))
    {
      assert Precedes(d, c.(x := c.x + 1)) <==> Precedes(d, c) || d == c;
    }
  }

  lemma CapturedWrap(m: Voxels, centre: Cell, radius: int, k: Box, y: int, z: int)
    ensures CapturedBefore(m, centre, radius, k, Cell(k.x1, y, z))
      == CapturedBefore(m, centre, radius, k, Cell(k.x0, y + 1, z))
    ensures CapturedBefore(m, centre, radius, k, Cell(k.x0, k.y1, z))
      == CapturedBefore(m, centre, radius, k, Cell(k.x0, k.y0, z + 1))
  {
    hide InBall;
  }

  lemma CapturedEnds(m: Voxels, centre: Cell, radius: int, k: Box)
    ensures CapturedBefore(m, centre, radius, k, Cell(k.x0, k.y0, k.z0)) == {}
    ensures CapturedBefore(m, centre, radius, k, Cell(k.x0, k.y0, k.z1)) == CapturedIn(m, centre, radius, k)
  {
    hide InBall;
  }

  // mn and mx are the least and greatest coordinates of the cells, or the loop's start values.
  ghost predicate TightAround(s: set<Cell>, k: Box, mn: Cell, mx: Cell) {
    if s == {} then mn == Cell(k.x1, k.y1, k.z1) && mx == Cell(k.x0 - 1, k.y0 - 1, k.z0 - 1)
    else
      && (forall c <- s :: mn.x <= c.x <= mx.x && mn.y <= c.y <= mx.y && mn.z <= c.z <= mx.z)
      && k.x0 <= mn.x <= mx.x < k.x1 && k.y0 <= mn.y <= mx.y < k.y1 && k.z0 <= mn.z <= mx.z < k.z1
  }

  lemma TightNone(k: Box)
    ensures TightAround({}, k, Cell(k.x1, k.y1, k.z1), Cell(k.x0 - 1, k.y0 - 1, k.z0 - 1))
  {
  }

  lemma TightMore(s: set<Cell>, k: Box, mn: Cell, mx: Cell, c: Cell)
    requires TightAround(s, k, mn, mx) && InBox(k, c)
    ensures TightAround(s + {c}, k, Cell(Min(mn.x, c.x), Min(mn.y, c.y), Min(mn.z, c.z)),
                        Cell(Max(mx.x, c.x), Max(mx.y, c.y), Max(mx.z, c.z)))
  {
  }

  // Tight bounds of the captured cells of a part.
  method TightBounds(world: VoxelWorld, centre: Cell, radius: nat, k: Box) returns (mn: Cell, mx: Cell)
    requires world.Valid() && k.x0 <= k.x1 && k.y0 <= k.y1 && k.z0 <= k.z1
    ensures TightAround(CapturedIn(world.Contents, centre, radius, k), k, mn, mx)
  {
    TightNone(k);
    hide InBall, InSphere, VoxelWorld.Valid, CapturedBefore, CapturedIn, TightAround;
    ghost var m := world.Contents;
    mn, mx := Cell(k.x1, k.y1, k.z1), Cell(k.x0 - 1, k.y0 - 1, k.z0 - 1);
    CapturedEnds(m, centre, radius, k);
    for z := k.z0 to k.z1
      invariant TightAround(CapturedBefore(m, centre, radius, k, Cell(k.x0, k.y0, z)), k, mn, mx)
    {
      for y := k.y0 to k.y1
        invariant TightAround(CapturedBefore(m, centre, radius, k, Cell(k.x0, y, z)), k, mn, mx)
      {
        for x := k.x0 to k.x1
          invariant TightAround(CapturedBefore(m, centre, radius, k, Cell(x, y, z)), k, mn, mx)
        {
          var c := Cell(x, y, z);
          CapturedStep(m, centre, radius, k, c);
          SpheresAgree(centre, radius, c);
          ghost var s := CapturedBefore(m, centre, radius, k, c);
          assert s + {} == s;
          if InSphere(centre, radius, c) && world.GetVoxel(c) != 0 {
            TightMore(s, k, mn, mx, c);
            mn := Cell(Min(mn.x, x), Min(mn.y, y), Min(mn.z, z));
            mx := Cell(Max(mx.x, x), Max(mx.y, y), Max(mx.z, z));
          }
        }
        CapturedWrap(m, centre, radius, k, y, z);
      }
      CapturedWrap(m, centre, radius, k, k.y0, z);
    }
  }

  // The chunk's grid holds the given cells, each at its own offset with its own material.
  ghost predicate Stores(t: DebrisChunk, mn: Cell, m: Voxels, s: set<Cell>) {
    && |t.mats| == t.dz * t.dy * t.dx
    && t.solidCount == |s|
    && forall l :: InLocal(t, l) ==> StoredAt(t, l) == if Offset(mn, l) in s then At(m, Offset(mn, l)) else 0
  }

  function Offset(mn: Cell, l: Cell): Cell {
    Cell(mn.x + l.x, mn.y + l.y, mn.z + l.z)
  }

  function StoredAt(t: DebrisChunk, l: Cell): Byte
    requires InLocal(t, l) && |t.mats| == t.dz * t.dy * t.dx
  {
    IdxBound(t, l);
    t.mats[Idx(t, l)]
  }

  lemma StoreStep(t: DebrisChunk, mn: Cell, m: Voxels, s: set<Cell>, l: Cell)
    requires Stores(t, mn, m, s) && InLocal(t, l) && Offset(mn, l) !in s && Offset(mn, l) in m
    ensures 0 <= Idx(t, l) < |t.mats|
    ensures Stores(t.(mats := t.mats[Idx(t, l) := At(m, Offset(mn, l))], solidCount := t.solidCount + 1), mn, m,
                   s + {Offset(mn, l)})
  {
    IdxBound(t, l);
    var t' := t.(mats := t.mats[Idx(t, l) := At(m, Offset(mn, l))], solidCount := t.solidCount + 1);
    forall k | InLocal(t', k)
      ensures StoredAt(t', k) == if k == l then At(m, Offset(mn, l)) else StoredAt(t, k)
    {
      IdxBound(t, k);
      if Idx(t, k) == Idx(t, l) {
        IdxInjective(t, k, l);
      }
    }
  }

  // A fresh chunk with the extents of box k that stores the cells of s so far.
  ghost predicate Filling(t: DebrisChunk, k: Box, m: Voxels, s: set<Cell>) {
    && ChunkShape(t) && !t.hasPrev && t.age == 0.0
    && t.dx == k.x1 - k.x0 && t.dy == k.y1 - k.y0 && t.dz == k.z1 - k.z0
    && Stores(t, Cell(k.x0, k.y0, k.z0), m, s)
  }

  // One turn of the innermost filling loop.
  method StoreCell(world: VoxelWorld, centre: Cell, radius: nat, k: Box, t: DebrisChunk, c: Cell, debrisMat: Byte)
    returns (t': DebrisChunk)
    requires world.Valid() && InBox(k, c)
    requires Filling(t, k, world.Contents, CapturedBefore(world.Contents, centre, radius, k, c))
    ensures Filling(t', k, world.Contents, CapturedBefore(world.Contents, centre, radius, k, c.(x := c.x + 1)))
  {
    FillingStep(world.Contents, centre, radius, k, t, c);
    SpheresAgree(centre, radius, c);
    hide InBall, InSphere, VoxelWorld.Valid, CapturedBefore, Filling, Idx;
    t' := t;
    if !InSphere(centre, radius, c) {
      return;
    }
    var mat := world.GetVoxel(c);
    if mat == 0 {
      return;
    }
    var l := Cell(c.x - k.x0, c.y - k.y0, c.z - k.z0);
    t' := t.(mats := t.mats[Idx(t, l) := if mat != 0 then mat else debrisMat], solidCount := t.solidCount + 1);
  }

  lemma FillingStep(m: Voxels, centre: Cell, radius: nat, k: Box, t: DebrisChunk, c: Cell)
    requires InBox(k, c) && Filling(t, k, m, CapturedBefore(m, centre, radius, k, c))
    ensures var l := Cell(c.x - k.x0, c.y - k.y0, c.z - k.z0);
      0 <= Idx(t, l) < |t.mats| &&
      if c in m && InBall(centre, radius, c)
      then Filling(t.(mats := t.mats[Idx(t, l) := At(m, c)], solidCount := t.solidCount + 1), k, m,
                   CapturedBefore(m, centre, radius, k, c.(x := c.x + 1)))
      else Filling(t, k, m, CapturedBefore(m, centre, radius, k, c.(x := c.x + 1)))
  {
    var l, mn := Cell(c.x - k.x0, c.y - k.y0, c.z - k.z0), Cell(k.x0, k.y0, k.z0);
    assert Offset(mn, l) == c;
    CapturedStep(m, centre, radius, k, c);
    IdxBound(t, l);
    hide InBall, CapturedBefore, Stores, Idx;
    if c in m && InBall(centre, radius, c) {
      StoreStep(t, mn, m, CapturedBefore(m, centre, radius, k, c), l);
    }
  }

  method StoreRow(world: VoxelWorld, centre: Cell, radius: nat, k: Box, t: DebrisChunk, y: int, z: int, debrisMat: Byte)
    returns (t': DebrisChunk)
    requires world.Valid() && k.x0 <= k.x1 && k.y0 <= y < k.y1 && k.z0 <= z < k.z1
    requires Filling(t, k, world.Contents, CapturedBefore(world.Contents, centre, radius, k, Cell(k.x0, y, z)))
    ensures Filling(t', k, world.Contents, CapturedBefore(world.Contents, centre, radius, k, Cell(k.x0, y + 1, z)))
  {
    hide VoxelWorld.Valid, CapturedBefore, Filling;
    t' := t;
    for x := k.x0 to k.x1
      invariant Filling(t', k, world.Contents, CapturedBefore(world.Contents, centre, radius, k, Cell(x, y, z)))
    {
      t' := StoreCell(world, centre, radius, k, t', Cell(x, y, z), debrisMat);
    }
    CapturedWrap(world.Contents, centre, radius, k, y, z);
  }

  method StoreRows(world: VoxelWorld, centre: Cell, radius: nat, k: Box, t: DebrisChunk, debrisMat: Byte)
    returns (t': DebrisChunk)
    requires world.Valid() && !EmptyBox(k)
    requires Filling(t, k, world.Contents, {})
    ensures Filling(t', k, world.Contents, CapturedIn(world.Contents, centre, radius, k))
  {
    hide VoxelWorld.Valid, CapturedBefore, Filling, CapturedIn;
    CapturedEnds(world.Contents, centre, radius, k);
    t' := t;
    for z := k.z0 to k.z1
      invariant Filling(t', k, world.Contents, CapturedBefore(world.Contents, centre, radius, k, Cell(k.x0, k.y0, z)))
    {
      for y := k.y0 to k.y1
        invariant Filling(t', k, world.Contents, CapturedBefore(world.Contents, centre, radius, k, Cell(k.x0, y, z)))
      {
        t' := StoreRow(world, centre, radius, k, t', y, z, debrisMat);
      }
      CapturedWrap(world.Contents, centre, radius, k, k.y0, z);
    }
  }

  // Copies the captured cells of the tight box into a fresh chunk.
  method FillChunk(world: VoxelWorld, centre: Cell, radius: nat, mn: Cell, mx: Cell, debrisMat: Byte)
    returns (t: DebrisChunk)
    requires world.Valid() && mn.x <= mx.x && mn.y <= mx.y && mn.z <= mx.z
    ensures var k := Box(mn.x, mn.y, mn.z, mx.x + 1, mx.y + 1, mx.z + 1);
      Filling(t, k, world.Contents, CapturedIn(world.Contents, centre, radius, k))
  {
    hide VoxelWorld.Valid;
    t := EmptyChunk(mx.x - mn.x + 1, mx.y - mn.y + 1, mx.z - mn.z + 1);
    NothingStored(t, mn, world.Contents);
    t := StoreRows(world, centre, radius, Box(mn.x, mn.y, mn.z, mx.x + 1, mx.y + 1, mx.z + 1), t, debrisMat);
  }

  const NO_BOX := Box(0, 0, 0, 0, 0, 0)
  const IDENTITY := Pose(0.0, 0.0, 0.0, 0.0, 0.0, 0.0, 1.0)

  function EmptyChunk(dx: nat, dy: nat, dz: nat): (t: DebrisChunk)
    requires dx > 0 && dy > 0 && dz > 0
    ensures ChunkShape(t)
  {
    MulMonotone(0, dz, dy);
    MulMonotone(0, dz * dy, dx);
    DebrisChunk(dx, dy, dz, seq(dz * dy * dx, _ => 0), 0, Vec3(0.5 * dx as real, 0.5 * dy as real, 0.5 * dz as real),
                -1, 0.0, false, NO_BOX, NO_BOX, IDENTITY, [])
  }

  lemma NothingStored(t: DebrisChunk, mn: Cell, m: Voxels)
    requires ChunkShape(t) && t.solidCount == 0 && forall i :: 0 <= i < |t.mats| ==> t.mats[i] == 0
    ensures Stores(t, mn, m, {})
  {
    hide Idx;
    forall l | InLocal(t, l)
      ensures StoredAt(t, l) == 0
    {
      IdxBound(t, l);
    }
  }

  // ------------------------------------------------------------------------------------------
  // A fresh chunk shows exactly the voxels it was cut from
  // ------------------------------------------------------------------------------------------

  function SpawnPose(t: DebrisChunk, mn: Cell): Pose {
    Pose(mn.x as real + t.localC.x, mn.y as real + t.localC.y, mn.z as real + t.localC.z, 0.0, 0.0, 0.0, 1.0)
  }

  // Under the pose the chunk shows the cells of s with their materials, and nothing anywhere else.
  ghost predicate Shows(t: DebrisChunk, pose: Pose, m: Voxels, s: set<Cell>) {
    && ChunkShape(t) && t.solidCount == |s|
    && forall c :: Sample(t, pose, c) == if c in s then At(m, c) else 0
  }

  lemma SpawnLocalCell(t: DebrisChunk, mn: Cell, c: Cell)
    ensures LocalCell(t, SpawnPose(t, mn), c) == Cell(c.x - mn.x, c.y - mn.y, c.z - mn.z)
  {
    var p := SpawnPose(t, mn);
    NoRotation(Vec3(c.x as real + 0.5 - p.px, c.y as real + 0.5 - p.py, c.z as real + 0.5 - p.pz), p.px, p.py, p.pz);
    hide QuatRotate, QuatRotateInv;
  }

  lemma SpawnShows(t: DebrisChunk, mn: Cell, m: Voxels, s: set<Cell>)
    requires ChunkShape(t) && Stores(t, mn, m, s)
    requires forall c <- s :: mn.x <= c.x < mn.x + t.dx && mn.y <= c.y < mn.y + t.dy && mn.z <= c.z < mn.z + t.dz
    ensures Shows(t, SpawnPose(t, mn), m, s)
  {
    forall c
      ensures Sample(t, SpawnPose(t, mn), c) == if c in s then At(m, c) else 0
    {
      SpawnLocalCell(t, mn, c);
      hide LocalCell;
      var l := Cell(c.x - mn.x, c.y - mn.y, c.z - mn.z);
      assert Offset(mn, l) == c;
      if InLocal(t, l) {
        assert StoredAt(t, l) == Sample(t, SpawnPose(t, mn), c);
      }
    }
  }

  lemma TightKeepsAll(m: Voxels, centre: Cell, radius: int, k: Box, mn: Cell, mx: Cell)
    requires TightAround(CapturedIn(m, centre, radius, k), k, mn, mx) && CapturedIn(m, centre, radius, k) != {}
    ensures CapturedIn(m, centre, radius, Box(mn.x, mn.y, mn.z, mx.x + 1, mx.y + 1, mx.z + 1))
      == CapturedIn(m, centre, radius, k)
  {
    hide InBall;
  }

  // The solid voxels of one part of a blast as a chunk, or nothing when it has none.
  method CapturePart(world: VoxelWorld, centre: Cell, radius: nat, k: Box, debrisMat: Byte)
    returns (found: bool, mn: Cell, t: DebrisChunk)
    requires world.Valid() && k.x0 <= k.x1 && k.y0 <= k.y1 && k.z0 <= k.z1
    ensures found <==> CapturedIn(world.Contents, centre, radius, k) != {}
    ensures found ==> !t.hasPrev && t.age == 0.0
    ensures found ==> Shows(t, SpawnPose(t, mn), world.Contents, CapturedIn(world.Contents, centre, radius, k))
  {
    hide VoxelWorld.Valid, CapturedIn, Shows, SpawnPose;
    ghost var m := world.Contents;
    var mx;
    mn, mx := TightBounds(world, centre, radius, k);
    if mx.x < mn.x || mx.y < mn.y || mx.z < mn.z {
      return false, mn, EmptyChunk(1, 1, 1);
    }
    TightKeepsAll(m, centre, radius, k, mn, mx);
    t := FillChunk(world, centre, radius, mn, mx, debrisMat);
    assert t.solidCount != 0;
    SpawnShows(t, mn, m, CapturedIn(m, centre, radius, k));
    return true, mn, t;
  }
}
