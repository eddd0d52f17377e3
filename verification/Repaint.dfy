// Uploading boxes of cells to the renderer: the terrain of a box, or a chunk drawn over it.
module Repaint {
  import opened Grid
  import opened Terrain
  import opened VoxelWorlds
  import opened Bricks
  import opened Physics
  import opened Rendering
  import opened DebrisChunks
  import opened Overlay

  // The cells of the box that come before `next`, listed in upload order.
  ghost predicate Listed(a: Box, want: Cell -> Word, region: seq<Word>, next: Cell) {
    && |region| == BoxIndex(a, next)
    && forall c :: InBox(a, c) && Precedes(c, next) ==>
         0 <= BoxIndex(a, c) < |region| && region[BoxIndex(a, c)] == want(c)
  }

  function TerrainOf(m: Voxels): Cell -> Word {
    c => At(m, c)
  }

  function OverlayOf(t: DebrisChunk, m: Voxels): Cell -> Word
    requires ChunkShape(t)
  {
    c => OverlayAt(t, m, c)
  }

  lemma ListNone(a: Box, want: Cell -> Word)
    ensures Listed(a, want, [], Cell(a.x0, a.y0, a.z0))
  {
  }

  lemma ListStep(a: Box, want: Cell -> Word, region: seq<Word>, c: Cell)
    requires Listed(a, want, region, c)
    ensures Listed(a, want, region + [want(c)], c.(x := c.x + 1))
  {
    var next, region' := c.(x := c.x + 1), region + [want(c)];
    assert BoxIndex(a, next) == BoxIndex(a, c) + 1;
    hide BoxIndex;
    forall d | InBox(a, d) && Precedes(d, next)
      ensures 0 <= BoxIndex(a, d) < |region'| && region'[BoxIndex(a, d)] == want(d)
    {
      assert Precedes(d, c) || d == c;
    }
  }

  lemma ListWrap(a: Box, want: Cell -> Word, region: seq<Word>, y: int, z: int)
    ensures Listed(a, want, region, Cell(a.x1, y, z)) ==> Listed(a, want, region, Cell(a.x0, y + 1, z))
    ensures Listed(a, want, region, Cell(a.x0, a.y1, z)) ==> Listed(a, want, region, Cell(a.x0, a.y0, z + 1))
  {
    IndexWrap(z - a.z0, y - a.y0, a.y1 - a.y0, a.x1 - a.x0);
    assert BoxIndex(a, Cell(a.x1, y, z)) == BoxIndex(a, Cell(a.x0, y + 1, z));
    assert BoxIndex(a, Cell(a.x0, a.y1, z)) == BoxIndex(a, Cell(a.x0, a.y0, z + 1));
    hide BoxIndex;
  }

  lemma IndexWrap(z: int, y: int, dy: int, dx: int)
    ensures (z * dy + y) * dx + dx == (z * dy + (y + 1)) * dx
    ensures (z * dy + dy) * dx == ((z + 1) * dy + 0) * dx
  {
  }

  lemma ListAll(a: Box, want: Cell -> Word, region: seq<Word>)
    requires Listed(a, want, region, Cell(a.x0, a.y0, a.z1))
    ensures |region| == BoxSize(a)
    ensures forall c :: InBox(a, c) ==> RegionAt(a, region, c) == want(c)
  {
    hide BoxIndex;
    assert BoxIndex(a, Cell(a.x0, a.y0, a.z1)) == BoxSize(a) by { FullIndex(a); }
    forall c | InBox(a, c)
      ensures RegionAt(a, region, c) == want(c)
    {
      assert Precedes(c, Cell(a.x0, a.y0, a.z1));
    }
  }

  lemma FullIndex(a: Box)
    ensures BoxIndex(a, Cell(a.x0, a.y0, a.z1)) == BoxSize(a)
  {
  }

  // ------------------------------------------------------------------------------------------
  // Back to terrain
  // ------------------------------------------------------------------------------------------

  method ListTerrain(world: VoxelWorld, a: Box) returns (scratch: seq<Word>)
    requires world.Valid() && !EmptyBox(a)
    ensures Listed(a, TerrainOf(world.Contents), scratch, Cell(a.x0, a.y0, a.z1))
  {
    hide VoxelWorld.Valid, Listed;
    ghost var want := TerrainOf(world.Contents);
    ListNone(a, want);
    scratch := [];
    for z := a.z0 to a.z1
      invariant Listed(a, want, scratch, Cell(a.x0, a.y0, z))
    {
      for y := a.y0 to a.y1
        invariant Listed(a, want, scratch, Cell(a.x0, y, z))
      {
        for x := a.x0 to a.x1
          invariant Listed(a, want, scratch, Cell(x, y, z))
        {
          ListStep(a, want, scratch, Cell(x, y, z));
          scratch := scratch + [world.GetVoxel(Cell(x, y, z))];
        }
        ListWrap(a, want, scratch, y, z);
      }
      ListWrap(a, want, scratch, a.y0, z);
    }
  }

  lemma TerrainUploaded(was: seq<Word>, now: seq<Word>, m: Voxels, a: Box, region: seq<Word>)
    requires Listed(a, TerrainOf(m), region, Cell(a.x0, a.y0, a.z1)) && |region| == BoxSize(a)
    requires Edited(was, now, a, region)
    ensures Cleared(was, now, m, a)
  {
    ListAll(a, TerrainOf(m), region);
    hide Listed;
  }

  // Puts the cells of a box back to terrain.
  method ClearBoxToTerrain(world: VoxelWorld, renderer: Renderer, a: Box)
    requires world.Valid() && renderer.Valid() && world.Repr !! renderer.Repr() && BoxInGrid(a)
    modifies renderer.voxelPtr, renderer.brickPtr, renderer`palette
    modifies renderer.history`accumFrame, renderer.history`accHave, renderer.history`epoch
    ensures renderer.Valid() && renderer.palette == old(renderer.palette)
    ensures Cleared(old(renderer.Cells()), renderer.Cells(), world.Contents, a)
    ensures EmptyBox(a) ==> renderer.Cells() == old(renderer.Cells())
  {
    hide VoxelWorld.Valid, Listed, Edited, Cleared;
    ghost var m := world.Contents;
    if EmptyBox(a) {
      NothingCleared(renderer.Cells(), m, a);
      return;
    }
    var scratch := ListTerrain(world, a);
    ListAll(a, TerrainOf(m), scratch);
    renderer.EditVoxels(a, scratch, None);
    TerrainUploaded(old(renderer.Cells()), renderer.Cells(), m, a, scratch);
  }

  lemma NothingCleared(g: seq<Word>, m: Voxels, a: Box)
    requires VoxelSized(g) && EmptyBox(a)
    ensures Cleared(g, g, m, a)
  {
  }

  predicate Within(a: Box, keep: Box) {
    a.x0 >= keep.x0 && a.x1 <= keep.x1 && a.y0 >= keep.y0 && a.y1 <= keep.y1 && a.z0 >= keep.z0 && a.z1 <= keep.z1
  }

  lemma WithinIsSubset(a: Box, keep: Box)
    requires !EmptyBox(a)
    ensures Within(a, keep) <==> forall c :: InBox(a, c) ==> InBox(keep, c)
  {
    if forall c :: InBox(a, c) ==> InBox(keep, c) {
      assert InBox(a, Cell(a.x0, a.y0, a.z0)) && InBox(a, Cell(a.x1 - 1, a.y1 - 1, a.z1 - 1));
    }
  }

  // Puts a chunk's previous box back to terrain, unless its current box covers it anyway.
  method ClearBoxExcept(world: VoxelWorld, renderer: Renderer, a: Box, keep: Box)
    requires world.Valid() && renderer.Valid() && world.Repr !! renderer.Repr() && BoxInGrid(a)
    modifies renderer.voxelPtr, renderer.brickPtr, renderer`palette
    modifies renderer.history`accumFrame, renderer.history`accHave, renderer.history`epoch
    ensures renderer.Valid() && renderer.palette == old(renderer.palette)
    ensures if forall c :: InBox(a, c) ==> InBox(keep, c) then renderer.Cells() == old(renderer.Cells())
            else Cleared(old(renderer.Cells()), renderer.Cells(), world.Contents, a)
  {
    if EmptyBox(a) {
      return;
    }
    WithinIsSubset(a, keep);
    if Within(a, keep) {
      return;
    }
    ClearBoxToTerrain(world, renderer, a);
  }

  // ------------------------------------------------------------------------------------------
  // One chunk drawn over the terrain
  // ------------------------------------------------------------------------------------------

  // Samples the chunk, and the terrain where it has nothing, over its current box.
  method BuildChunkRegion(world: VoxelWorld, t: DebrisChunk) returns (region: seq<Word>)
    requires world.Valid() && ChunkShape(t)
    ensures RegionShows(t.cur, region, t, world.Contents)
    ensures EmptyBox(t.cur) ==> region == []
    // each cell has the voxel whose place the pose puts over the cell's centre, or the terrain
    ensures Unit(t.pose) ==> forall c, l :: InBox(t.cur, c) && Covering(t, t.pose, l, c) ==>
      |region| == BoxSize(t.cur) && RegionAt(t.cur, region, c) == SeenAt(t, world.Contents, l, c)
  {
    hide VoxelWorld.Valid, Listed, Sample;
    var a := t.cur;
    region := [];
    if EmptyBox(a) {
      return;
    }
    ghost var want := OverlayOf(t, world.Contents);
    ListNone(a, want);
    for z := a.z0 to a.z1
      invariant Listed(a, want, region, Cell(a.x0, a.y0, z))
    {
      for y := a.y0 to a.y1
        invariant Listed(a, want, region, Cell(a.x0, y, z))
      {
        for x := a.x0 to a.x1
          invariant Listed(a, want, region, Cell(x, y, z))
        {
          var m := Sample(t, t.pose, Cell(x, y, z));
          ListStep(a, want, region, Cell(x, y, z));
          region := region + [if m != 0 then m else world.GetVoxel(Cell(x, y, z))];
        }
        ListWrap(a, want, region, y, z);
      }
      ListWrap(a, want, region, a.y0, z);
    }
    ListAll(a, want, region);
    if Unit(t.pose) {
      RegionIsSeen(a, region, t, world.Contents);
    }
  }

  lemma RegionIsSeen(a: Box, region: seq<Word>, t: DebrisChunk, m: Voxels)
    requires RegionShows(a, region, t, m) && !EmptyBox(a) && Unit(t.pose)
    ensures forall c, l :: InBox(a, c) && Covering(t, t.pose, l, c) ==>
      |region| == BoxSize(a) && RegionAt(a, region, c) == SeenAt(t, m, l, c)
  {
    hide Covering, SeenAt, OverlayAt, ChunkShape, BoxSize;
    forall c, l | InBox(a, c) && Covering(t, t.pose, l, c)
      ensures RegionAt(a, region, c) == SeenAt(t, m, l, c)
    {
      OverlayIsSeen(t, m, c);
    }
  }

  // One chunk's turn: its previous box is cleared, its current box is painted.
  method PaintChunk(world: VoxelWorld, renderer: Renderer, t: DebrisChunk)
    requires world.Valid() && renderer.Valid() && world.Repr !! renderer.Repr()
    requires (t.hasPrev ==> BoxInGrid(t.prev)) && BoxInGrid(t.cur) && RegionShows(t.cur, t.region, t, world.Contents)
    modifies renderer.voxelPtr, renderer.brickPtr, renderer`palette
    modifies renderer.history`accumFrame, renderer.history`accHave, renderer.history`epoch
    ensures renderer.Valid() && renderer.palette == old(renderer.palette)
    ensures PaintedOne(old(renderer.Cells()), renderer.Cells(), world.Contents, t)
  {
    hide VoxelWorld.Valid, RegionShows, Edited, Cleared, PaintedOne;
    ghost var m, was := world.Contents, renderer.Cells();
    if t.hasPrev {
      ClearBoxExcept(world, renderer, t.prev, t.cur);
    }
    ghost var mid := renderer.Cells();
    assert !EmptyBox(t.cur) ==> |t.region| == BoxSize(t.cur) by { RegionSize(t, m); }
    if !EmptyBox(t.cur) {
      renderer.EditVoxels(t.cur, t.region, None);
    }
    ChunkPainted(was, mid, renderer.Cells(), m, t);
  }

  lemma RegionSize(t: DebrisChunk, m: Voxels)
    requires RegionShows(t.cur, t.region, t, m)
    ensures !EmptyBox(t.cur) ==> |t.region| == BoxSize(t.cur)
    ensures ChunkShape(t)
  {
  }

  ghost predicate PaintedOne(was: seq<Word>, now: seq<Word>, m: Voxels, t: DebrisChunk) {
    && VoxelSized(was) && VoxelSized(now) && ChunkShape(t)
    && forall c :: InGrid(c) ==> Peek(now, WORLD_DIM, c) == CellAfter(Peek(was, WORLD_DIM, c), m, t, c)
  }

  lemma ChunkPainted(was: seq<Word>, mid: seq<Word>, now: seq<Word>, m: Voxels, t: DebrisChunk)
    requires VoxelSized(was) && VoxelSized(mid) && RegionShows(t.cur, t.region, t, m)
    requires if !t.hasPrev || forall c :: InBox(t.prev, c) ==> InBox(t.cur, c) then mid == was
             else Cleared(was, mid, m, t.prev)
    requires if EmptyBox(t.cur) then now == mid else |t.region| == BoxSize(t.cur) && Edited(mid, now, t.cur, t.region)
    ensures PaintedOne(was, now, m, t)
  {
    hide OverlayAt;
  }
}
