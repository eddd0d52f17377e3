// What one frame of debris does to the GPU grid, cell by cell.
module Overlay {
  import opened Grid
  import opened Terrain
  import opened Bricks
  import opened Physics
  import opened DebrisChunks

  // A cell inside a chunk's box shows the chunk's voxel, or the terrain where it has none.
  function OverlayAt(t: DebrisChunk, m: Voxels, c: Cell): Word
    requires ChunkShape(t)
  {
    var s := Sample(t, t.pose, c);
    if s != 0 then s else At(m, c)
  }

  // What is seen in a cell over whose centre the pose puts the place l of the chunk.
  function SeenAt(t: DebrisChunk, m: Voxels, l: Cell, c: Cell): Word
    requires ChunkShape(t)
  {
    if !InLocal(t, l) then At(m, c)
    else
      IdxBound(t, l);
      if t.mats[Idx(t, l)] != 0 then t.mats[Idx(t, l)] else At(m, c)
  }

  lemma OverlayIsSeen(t: DebrisChunk, m: Voxels, c: Cell)
    requires ChunkShape(t) && Unit(t.pose)
    ensures forall l :: Covering(t, t.pose, l, c) ==> OverlayAt(t, m, c) == SeenAt(t, m, l, c)
  {
    var l := SampleIsCovering(t, t.pose, c);
    hide Sample, Covering, Idx, ChunkShape;
  }

  // The grid shows nothing but terrain.
  ghost predicate ShowsTerrain(g: seq<Word>, m: Voxels) {
    VoxelSized(g) && forall c :: InGrid(c) ==> Peek(g, WORLD_DIM, c) == At(m, c)
  }

  ghost predicate ShownBy(t: DebrisChunk, c: Cell, v: Word) {
    t.hasPrev && InBox(t.prev, c) && ChunkShape(t) && v == Sample(t, t.pose, c) && v != 0
  }

  // The render invariant: every cell shows the terrain, or a live chunk's voxel inside the box
  // that chunk painted last.
  ghost predicate Consistent(g: seq<Word>, m: Voxels, live: seq<DebrisChunk>) {
    && VoxelSized(g)
    && forall c :: InGrid(c) ==>
         var v := Peek(g, WORLD_DIM, c); v == At(m, c) || exists i :: 0 <= i < |live| && ShownBy(live[i], c, v)
  }

  // The cells of a box are put back to terrain.
  ghost predicate Cleared(was: seq<Word>, now: seq<Word>, m: Voxels, a: Box) {
    && VoxelSized(was) && VoxelSized(now)
    && forall c :: InGrid(c) ==> Peek(now, WORLD_DIM, c) == if InBox(a, c) then At(m, c) else Peek(was, WORLD_DIM, c)
  }

  ghost predicate RegionShows(a: Box, region: seq<Word>, t: DebrisChunk, m: Voxels) {
    && ChunkShape(t) && (!EmptyBox(a) ==> |region| == BoxSize(a))
    && forall c :: InBox(a, c) && |region| == BoxSize(a) ==> RegionAt(a, region, c) == OverlayAt(t, m, c)
  }

  // One chunk's turn: its previous box goes back to terrain, then its current box is painted.
  function CellAfter(was: Word, m: Voxels, t: DebrisChunk, c: Cell): Word
    requires ChunkShape(t)
  {
    if InBox(t.cur, c) then OverlayAt(t, m, c)
    else if t.hasPrev && InBox(t.prev, c) then At(m, c)
    else was
  }

  predicate AllShaped(jobs: seq<DebrisChunk>) {
    forall i :: 0 <= i < |jobs| ==> ChunkShape(jobs[i])
  }

  // All turns, in list order.
  function CellAfterAll(was: Word, m: Voxels, jobs: seq<DebrisChunk>, c: Cell): Word
    requires AllShaped(jobs)
  {
    if jobs == [] then was
    else CellAfter(CellAfterAll(was, m, jobs[..|jobs| - 1], c), m, jobs[|jobs| - 1], c)
  }

  predicate Touches(t: DebrisChunk, c: Cell) {
    InBox(t.cur, c) || (t.hasPrev && InBox(t.prev, c))
  }

  lemma {:induction false} AfterAllCases(was: Word, m: Voxels, jobs: seq<DebrisChunk>, c: Cell)
    requires AllShaped(jobs)
    ensures var v := CellAfterAll(was, m, jobs, c);
      if exists i :: 0 <= i < |jobs| && Touches(jobs[i], c)
      then v == At(m, c)
        || exists i :: 0 <= i < |jobs| && InBox(jobs[i].cur, c) && v == Sample(jobs[i], jobs[i].pose, c) != 0
      else v == was
  {
    if jobs != [] {
      var init, last := jobs[..|jobs| - 1], jobs[|jobs| - 1];
      AfterAllCases(was, m, init, c);
      hide Sample, ChunkShape;
      if Touches(last, c) {
        assert Touches(jobs[|jobs| - 1], c);
        if InBox(last.cur, c) && Sample(last, last.pose, c) != 0 {
          assert InBox(jobs[|jobs| - 1].cur, c);
        }
      } else if exists i :: 0 <= i < |init| && Touches(init[i], c) {
        var i :| 0 <= i < |init| && Touches(init[i], c);
        assert Touches(jobs[i], c);
        var v := CellAfterAll(was, m, init, c);
        if v != At(m, c) {
          var j :| 0 <= j < |init| && InBox(init[j].cur, c) && v == Sample(init[j], init[j].pose, c) != 0;
          assert InBox(jobs[j].cur, c);
        }
      } else {
        forall i | 0 <= i < |jobs|
          ensures !Touches(jobs[i], c)
        {
          if i < |init| { assert !Touches(init[i], c); }
        }
      }
    }
  }

  // No chunk after the k-th touches the cell.
  predicate NoLaterTouch(jobs: seq<DebrisChunk>, k: nat, c: Cell) {
    forall i :: k < i < |jobs| ==> !Touches(jobs[i], c)
  }

  // The last chunk whose turn touches a cell decides it: by painting it, or by clearing it as a
  // part of its previous box.
  lemma {:induction false} LastTouchDecides(was: Word, m: Voxels, jobs: seq<DebrisChunk>, k: nat, c: Cell)
    requires AllShaped(jobs) && k < |jobs| && Touches(jobs[k], c) && NoLaterTouch(jobs, k, c)
    ensures CellAfterAll(was, m, jobs, c) == if InBox(jobs[k].cur, c) then OverlayAt(jobs[k], m, c) else At(m, c)
  {
    if k < |jobs| - 1 {
      var init := jobs[..|jobs| - 1];
      assert !Touches(jobs[|jobs| - 1], c);
      assert AllShaped(init) && init[k] == jobs[k];
      forall i | k < i < |init|
        ensures !Touches(init[i], c)
      {
        assert init[i] == jobs[i];
      }
      LastTouchDecides(was, m, init, k, c);
    }
  }

  // There is a last chunk that touches a cell, if any does.
  lemma {:induction false} LastTouch(jobs: seq<DebrisChunk>, k: nat, c: Cell) returns (last: nat)
    requires k < |jobs| && Touches(jobs[k], c)
    ensures k <= last < |jobs| && Touches(jobs[last], c) && NoLaterTouch(jobs, last, c)
    decreases |jobs| - k
  {
    if i :| k < i < |jobs| && Touches(jobs[i], c) {
      last := LastTouch(jobs, i, c);
    } else {
      last := k;
    }
  }

  // A chunk has a voxel in the cell that differs from the terrain there and from every later sample.
  ghost predicate StandsOut(m: Voxels, jobs: seq<DebrisChunk>, k: nat, c: Cell)
    requires AllShaped(jobs) && k < |jobs|
  {
    var v := Sample(jobs[k], jobs[k].pose, c);
    && v != 0 && v != At(m, c)
    && forall i :: k < i < |jobs| ==> Sample(jobs[i], jobs[i].pose, c) != v
  }

  // Such a voxel is on show after the frame if and only if no later turn touches its cell.
  lemma ShownIffNotTouchedLater(was: Word, m: Voxels, jobs: seq<DebrisChunk>, k: nat, c: Cell)
    requires AllShaped(jobs) && k < |jobs| && InBox(jobs[k].cur, c) && StandsOut(m, jobs, k, c)
    ensures CellAfterAll(was, m, jobs, c) == Sample(jobs[k], jobs[k].pose, c) <==> NoLaterTouch(jobs, k, c)
  {
    var last := LastTouch(jobs, k, c);
    hide Sample, CellAfterAll, ChunkShape;
    LastTouchDecides(was, m, jobs, last, c);
  }

  // The chunk after its turn.
  function Finished(t: DebrisChunk): DebrisChunk {
    t.(prev := t.cur, hasPrev := true)
  }

  ghost predicate PaintedAll(was: seq<Word>, now: seq<Word>, m: Voxels, jobs: seq<DebrisChunk>) {
    && VoxelSized(was) && VoxelSized(now) && AllShaped(jobs)
    && forall c :: InGrid(c) ==> Peek(now, WORLD_DIM, c) == CellAfterAll(Peek(was, WORLD_DIM, c), m, jobs, c)
  }

  // The jobs of a frame: the live chunks with this frame's pose and box.
  ghost predicate JobsOf(live: seq<DebrisChunk>, jobs: seq<DebrisChunk>) {
    && |jobs| == |live|
    && forall i :: 0 <= i < |jobs| ==> jobs[i].hasPrev == live[i].hasPrev && jobs[i].prev == live[i].prev
  }

  // A frame keeps the render invariant.
  lemma FrameKeepsConsistent(was: seq<Word>, now: seq<Word>, m: Voxels, live: seq<DebrisChunk>, jobs: seq<DebrisChunk>)
    requires Consistent(was, m, live) && JobsOf(live, jobs) && PaintedAll(was, now, m, jobs)
    ensures Consistent(now, m, seq(|jobs|, i requires 0 <= i < |jobs| => Finished(jobs[i])))
  {
    var done := seq(|jobs|, i requires 0 <= i < |jobs| => Finished(jobs[i]));
    forall c | InGrid(c)
      ensures var v := Peek(now, WORLD_DIM, c); v == At(m, c) || exists i :: 0 <= i < |done| && ShownBy(done[i], c, v)
    {
      FrameKeepsCell(Peek(was, WORLD_DIM, c), Peek(now, WORLD_DIM, c), m, live, jobs, done, c);
    }
  }

  lemma FrameKeepsCell(was: Word, v: Word, m: Voxels, live: seq<DebrisChunk>, jobs: seq<DebrisChunk>,
                       done: seq<DebrisChunk>, c: Cell)
    requires was == At(m, c) || exists i :: 0 <= i < |live| && ShownBy(live[i], c, was)
    requires JobsOf(live, jobs) && AllShaped(jobs) && v == CellAfterAll(was, m, jobs, c)
    requires |done| == |jobs| && forall i :: 0 <= i < |jobs| ==> done[i] == Finished(jobs[i])
    ensures v == At(m, c) || exists i :: 0 <= i < |done| && ShownBy(done[i], c, v)
  {
    AfterAllCases(was, m, jobs, c);
    if exists i :: 0 <= i < |jobs| && Touches(jobs[i], c) {
      if v != At(m, c) {
        var i :| 0 <= i < |jobs| && InBox(jobs[i].cur, c) && v == Sample(jobs[i], jobs[i].pose, c) != 0;
        FinishedSample(jobs[i], c);
        assert ShownBy(done[i], c, v);
      }
    } else if was != At(m, c) {
      var i :| 0 <= i < |live| && ShownBy(live[i], c, was);
      assert Touches(jobs[i], c);
    }
  }

  lemma FinishedSample(t: DebrisChunk, c: Cell)
    requires ChunkShape(t)
    ensures ChunkShape(Finished(t)) && Sample(Finished(t), t.pose, c) == Sample(t, t.pose, c)
  {
    assert LocalCell(Finished(t), t.pose, c) == LocalCell(t, t.pose, c);
  }

  // With a single chunk the grid is exactly the terrain overlaid with it.
  lemma SingleChunkExact(was: seq<Word>, now: seq<Word>, m: Voxels, live: seq<DebrisChunk>, jobs: seq<DebrisChunk>,
                         c: Cell)
    requires Consistent(was, m, live) && JobsOf(live, jobs) && |jobs| == 1 && PaintedAll(was, now, m, jobs)
    requires forall d :: InGrid(d) && InLocal(jobs[0], LocalCell(jobs[0], jobs[0].pose, d)) ==> InBox(jobs[0].cur, d)
    requires InGrid(c)
    ensures Peek(now, WORLD_DIM, c) == OverlayAt(jobs[0], m, c)
  {
    var t := jobs[0];
    var w := Peek(was, WORLD_DIM, c);
    assert jobs[..0] == [];
    assert CellAfterAll(w, m, jobs[..0], c) == w;
    assert Peek(now, WORLD_DIM, c) == CellAfterAll(w, m, jobs, c) == CellAfter(w, m, t, c);
    hide LocalCell;
    if w != At(m, c) {
      var i :| 0 <= i < |live| && ShownBy(live[i], c, w);
      assert i == 0 && Touches(t, c);
    }
  }

  // Dropping a chunk whose box went back to terrain keeps the invariant.
  lemma DropCleared(was: seq<Word>, now: seq<Word>, m: Voxels, live: seq<DebrisChunk>, k: nat)
    requires Consistent(was, m, live) && k < |live|
    requires if live[k].hasPrev then Cleared(was, now, m, live[k].prev) else now == was
    ensures Consistent(now, m, live[..k] + live[k + 1..])
  {
    var rest := live[..k] + live[k + 1..];
    forall c | InGrid(c)
      ensures var v := Peek(now, WORLD_DIM, c); v == At(m, c) || exists i :: 0 <= i < |rest| && ShownBy(rest[i], c, v)
    {
      var v := Peek(now, WORLD_DIM, c);
      if v != At(m, c) {
        var i :| 0 <= i < |live| && ShownBy(live[i], c, v);
        assert i != k;
        assert rest[if i < k then i else i - 1] == live[i];
      }
    }
  }

  // Chunks that only grew older are shown alike.
  lemma AgeingKeeps(g: seq<Word>, m: Voxels, live: seq<DebrisChunk>, k: nat, age: real)
    requires Consistent(g, m, live) && k < |live|
    ensures Consistent(g, m, live[k := live[k].(age := age)])
  {
    var older := live[k := live[k].(age := age)];
    forall c | InGrid(c)
      ensures var v := Peek(g, WORLD_DIM, c); v == At(m, c) || exists i :: 0 <= i < |older| && ShownBy(older[i], c, v)
    {
      var v := Peek(g, WORLD_DIM, c);
      if v != At(m, c) {
        var i :| 0 <= i < |live| && ShownBy(live[i], c, v);
        assert LocalCell(older[i], older[i].pose, c) == LocalCell(live[i], live[i].pose, c);
        assert ShownBy(older[i], c, v);
      }
    }
  }

  // An edit of the terrain that is uploaded at once keeps the invariant, whatever is overpainted.
  lemma UploadKeeps(was: seq<Word>, now: seq<Word>, m: Voxels, m': Voxels, live: seq<DebrisChunk>, a: Box)
    requires Consistent(was, m, live) && Cleared(was, now, m', a)
    requires forall c :: InGrid(c) && !InBox(a, c) ==> At(m', c) == At(m, c)
    ensures Consistent(now, m', live)
  {
  }

  lemma TerrainOnly(g: seq<Word>, m: Voxels, live: seq<DebrisChunk>)
    ensures ShowsTerrain(g, m) ==> Consistent(g, m, live)
    ensures Consistent(g, m, []) ==> ShowsTerrain(g, m)
  {
  }

  // New chunks have not painted anything yet.
  lemma NewChunksKeep(g: seq<Word>, m: Voxels, live: seq<DebrisChunk>, live': seq<DebrisChunk>)
    requires Consistent(g, m, live) && live <= live'
    ensures Consistent(g, m, live')
  {
  }
}
