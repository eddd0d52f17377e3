// The coarse brick index over the renderer's voxel grid: one word per 8^3 block of cells.
module Bricks {
  import opened Grid

  const BRICK_DIM: nat := 8
  const BRICK_GRID: nat := 16
  const VOXELS: nat := WORLD_DIM * WORLD_DIM * WORLD_DIM

  function BrickOf(c: Cell): Cell {
    Cell(c.x / BRICK_DIM, c.y / BRICK_DIM, c.z / BRICK_DIM)
  }

  // The renderer's two flat buffers have one word per cell and one per brick.
  predicate VoxelSized(v: seq<Word>) { |v| == VOXELS }

  predicate BrickSized(b: seq<Word>) { |b| == BRICK_GRID * BRICK_GRID * BRICK_GRID }

  // Some solid cell of brick b comes before `next` in loop order.
  ghost predicate SolidBefore(v: seq<Word>, b: Cell, next: Cell)
    requires VoxelSized(v)
  {
    exists c :: InGrid(c) && Precedes(c, next) && BrickOf(c) == b && Peek(v, WORLD_DIM, c) != 0
  }

  ghost predicate BrickSolid(v: seq<Word>, b: Cell)
    requires VoxelSized(v)
  {
    exists c :: InGrid(c) && BrickOf(c) == b && Peek(v, WORLD_DIM, c) != 0
  }

  // The index is exact: a brick is marked 1 if one of its cells is solid, and 0 otherwise.
  ghost predicate BricksExact(v: seq<Word>, bricks: seq<Word>) {
    && VoxelSized(v) && BrickSized(bricks)
    && forall b :: InCube(BRICK_GRID, b) ==> Peek(bricks, BRICK_GRID, b) == if BrickSolid(v, b) then 1 else 0
  }

  ghost predicate Marked(v: seq<Word>, bricks: seq<Word>, next: Cell) {
    && VoxelSized(v) && BrickSized(bricks)
    && forall b :: InCube(BRICK_GRID, b) ==> Peek(bricks, BRICK_GRID, b) == if SolidBefore(v, b, next) then 1 else 0
  }

  lemma BrickInGrid(c: Cell)
    requires InGrid(c)
    ensures InCube(BRICK_GRID, BrickOf(c))
  {
  }

  lemma MarkNone(v: seq<Word>, bricks: seq<Word>)
    requires VoxelSized(v) && BrickSized(bricks) && forall i :: 0 <= i < |bricks| ==> bricks[i] == 0
    ensures Marked(v, bricks, Cell(0, 0, 0))
  {
    forall b | InCube(BRICK_GRID, b)
      ensures Peek(bricks, BRICK_GRID, b) == 0
    {
      FlatBound(BRICK_GRID, b);
      assert Peek(bricks, BRICK_GRID, b) == bricks[Flat(BRICK_GRID, b)];
    }
  }

  lemma MarkStep(v: seq<Word>, bricks: seq<Word>, c: Cell)
    requires InGrid(c) && Marked(v, bricks, c)
    ensures InCube(BRICK_GRID, BrickOf(c)) && 0 <= Flat(BRICK_GRID, BrickOf(c)) < |bricks|
    ensures var bricks' := if Peek(v, WORLD_DIM, c) != 0 then bricks[Flat(BRICK_GRID, BrickOf(c)) := 1] else bricks;
      Marked(v, bricks', c.(x := c.x + 1))
  {
    var next := c.(x := c.x + 1);
    BrickInGrid(c);
    FlatBound(BRICK_GRID, BrickOf(c));
    var bricks' := if Peek(v, WORLD_DIM, c) != 0 then bricks[Flat(BRICK_GRID, BrickOf(c)) := 1] else bricks;
    forall b | InCube(BRICK_GRID, b)
      ensures Peek(bricks', BRICK_GRID, b) == if SolidBefore(v, b, next) then 1 else 0
    {
      PeekAfterWrite(bricks, BRICK_GRID, BrickOf(c), 1, b);
      SolidBeforeStep(v, b, c);
    }
  }

  lemma SolidBeforeStep(v: seq<Word>, b: Cell, c: Cell)
    requires VoxelSized(v) && InGrid(c)
    ensures SolidBefore(v, b, c.(x := c.x + 1)) <==>
      SolidBefore(v, b, c) || (BrickOf(c) == b && Peek(v, WORLD_DIM, c) != 0)
  {
    var next := c.(x := c.x + 1);
    if SolidBefore(v, b, next) {
      var d :| InGrid(d) && Precedes(d, next) && BrickOf(d) == b && Peek(v, WORLD_DIM, d) != 0;
      assert Precedes(d, c) || d == c;
    }
    if SolidBefore(v, b, c) {
      var d :| InGrid(d) && Precedes(d, c) && BrickOf(d) == b && Peek(v, WORLD_DIM, d) != 0;
      assert Precedes(d, next);
    }
    if BrickOf(c) == b && Peek(v, WORLD_DIM, c) != 0 {
      assert Precedes(c, next);
    }
  }

  // Grid coordinates end at 128, so the end of a row is the start of the next one.
  lemma MarkWrap(v: seq<Word>, bricks: seq<Word>, y: nat, z: nat)
    ensures Marked(v, bricks, Cell(WORLD_DIM, y, z)) ==> Marked(v, bricks, Cell(0, y + 1, z))
    ensures Marked(v, bricks, Cell(0, WORLD_DIM, z)) ==> Marked(v, bricks, Cell(0, 0, z + 1))
  {
    assert forall c :: InGrid(c) ==> (Precedes(c, Cell(WORLD_DIM, y, z)) <==> Precedes(c, Cell(0, y + 1, z)));
    assert forall c :: InGrid(c) ==> (Precedes(c, Cell(0, WORLD_DIM, z)) <==> Precedes(c, Cell(0, 0, z + 1)));
    if VoxelSized(v) {
      forall b
        ensures SolidBefore(v, b, Cell(WORLD_DIM, y, z)) <==> SolidBefore(v, b, Cell(0, y + 1, z))
        ensures SolidBefore(v, b, Cell(0, WORLD_DIM, z)) <==> SolidBefore(v, b, Cell(0, 0, z + 1))
      {
      }
    }
  }

  lemma MarkAll(v: seq<Word>, bricks: seq<Word>)
    requires Marked(v, bricks, Cell(0, 0, WORLD_DIM))
    ensures BricksExact(v, bricks)
  {
    forall b
      ensures SolidBefore(v, b, Cell(0, 0, WORLD_DIM)) <==> BrickSolid(v, b)
    {
      if BrickSolid(v, b) {
        var c :| InGrid(c) && BrickOf(c) == b && Peek(v, WORLD_DIM, c) != 0;
        assert Precedes(c, Cell(0, 0, WORLD_DIM));
      }
    }
  }

  // One turn of the innermost marking loop.
  method MarkCell(v: array<Word>, bricks: array<Word>, c: Cell)
    requires InGrid(c) && Marked(v[..], bricks[..], c) && v != bricks
    modifies bricks
    ensures Marked(v[..], bricks[..], c.(x := c.x + 1))
  {
    ghost var voxels, was := v[..], bricks[..];
    MarkStep(voxels, was, c);
    MarkedSize(voxels, was, c);
    FlatBound(WORLD_DIM, c);
    hide Marked;
    assert Peek(voxels, WORLD_DIM, c) == v[Flat(WORLD_DIM, c)];
    if v[Flat(WORLD_DIM, c)] != 0 {
      bricks[Flat(BRICK_GRID, BrickOf(c))] := 1;
      assert bricks[..] == was[Flat(BRICK_GRID, BrickOf(c)) := 1];
    }
  }

  lemma MarkedSize(v: seq<Word>, bricks: seq<Word>, next: Cell)
    requires Marked(v, bricks, next)
    ensures VoxelSized(v)
  {
  }

  // Marks every brick that holds a solid cell; the index starts out all zero.
  method MarkBricks(v: array<Word>, bricks: array<Word>)
    requires VoxelSized(v[..]) && BrickSized(bricks[..]) && v != bricks
    requires forall i :: 0 <= i < bricks.Length ==> bricks[i] == 0
    modifies bricks
    ensures BricksExact(v[..], bricks[..])
  {
    MarkNone(v[..], bricks[..]);
    hide Marked, BricksExact, VoxelSized, BrickSized;
    for z := 0 to WORLD_DIM
      invariant Marked(v[..], bricks[..], Cell(0, 0, z))
    {
      for y := 0 to WORLD_DIM
        invariant Marked(v[..], bricks[..], Cell(0, y, z))
      {
        for x := 0 to WORLD_DIM
          invariant Marked(v[..], bricks[..], Cell(x, y, z))
        {
          MarkCell(v, bricks, Cell(x, y, z));
        }
        MarkWrap(v[..], bricks[..], y, z);
      }
      MarkWrap(v[..], bricks[..], 0, z);
    }
    MarkAll(v[..], bricks[..]);
  }

  // Index of a dense grid, built from scratch.
  method BuildBrickOccupancy(grid: array<Word>) returns (occ: array<Word>)
    ensures fresh(occ) && BrickSized(occ[..])
    ensures if grid.Length < VOXELS then forall i :: 0 <= i < occ.Length ==> occ[i] == 0
            else BricksExact(grid[..VOXELS], occ[..])
  {
    occ := new Word[BRICK_GRID * BRICK_GRID * BRICK_GRID](_ => 0);
    if grid.Length < VOXELS {
      return;
    }
    // only the first 128^3 words of a larger grid are looked at
    var head := new Word[VOXELS](i requires 0 <= i < grid.Length reads grid => grid[i]);
    assert head[..] == grid[..VOXELS];
    MarkBricks(head, occ);
  }

  // ------------------------------------------------------------------------------------------
  // Incremental edits
  // ------------------------------------------------------------------------------------------

  // `now` is `was` with the cells of the box before `next` replaced by the region's values.
  ghost predicate Copied(was: seq<Word>, now: seq<Word>, b: Box, region: seq<Word>, next: Cell)
    requires |region| == BoxSize(b)
  {
    && VoxelSized(was) && VoxelSized(now)
    && forall c :: InGrid(c) ==>
         Peek(now, WORLD_DIM, c)
         == if InBox(b, c) && Precedes(c, next) then RegionAt(b, region, c) else Peek(was, WORLD_DIM, c)
  }

  function RegionAt(b: Box, region: seq<Word>, c: Cell): Word
    requires |region| == BoxSize(b) && InBox(b, c)
  {
    BoxIndexBound(b, c);
    region[BoxIndex(b, c)]
  }

  // The grid after an edit of the box.
  ghost predicate Edited(was: seq<Word>, now: seq<Word>, b: Box, region: seq<Word>)
    requires |region| == BoxSize(b)
  {
    && VoxelSized(was) && VoxelSized(now)
    && forall c :: InGrid(c) ==>
         Peek(now, WORLD_DIM, c) == if InBox(b, c) then RegionAt(b, region, c) else Peek(was, WORLD_DIM, c)
  }

  lemma CopyStep(was: seq<Word>, now: seq<Word>, b: Box, region: seq<Word>, c: Cell)
    requires |region| == BoxSize(b) && Copied(was, now, b, region, c) && InBox(b, c) && InGrid(c)
    ensures 0 <= Flat(WORLD_DIM, c) < |now|
    ensures Copied(was, now[Flat(WORLD_DIM, c) := RegionAt(b, region, c)], b, region, c.(x := c.x + 1))
  {
    var v := RegionAt(b, region, c);
    FlatBound(WORLD_DIM, c);
    forall d | InGrid(d)
      ensures Peek(now[Flat(WORLD_DIM, c) := v], WORLD_DIM, d) == if d == c then v else Peek(now, WORLD_DIM, d)
    {
      PeekAfterWrite(now, WORLD_DIM, c, v, d);
    }
  }

  lemma CopyWrap(was: seq<Word>, now: seq<Word>, b: Box, region: seq<Word>, y: int, z: int)
    requires |region| == BoxSize(b)
    ensures Copied(was, now, b, region, Cell(b.x1, y, z)) ==> Copied(was, now, b, region, Cell(b.x0, y + 1, z))
    ensures Copied(was, now, b, region, Cell(b.x0, b.y1, z)) ==> Copied(was, now, b, region, Cell(b.x0, b.y0, z + 1))
  {
  }

  lemma CopyEnds(was: seq<Word>, now: seq<Word>, b: Box, region: seq<Word>)
    requires |region| == BoxSize(b)
    ensures VoxelSized(was) ==> Copied(was, was, b, region, Cell(b.x0, b.y0, b.z0))
    ensures Copied(was, now, b, region, Cell(b.x0, b.y0, b.z1)) ==> Edited(was, now, b, region)
  {
  }

  // Writes the region's cells row by row into the grid.
  method CopyRegion(v: array<Word>, b: Box, region: seq<Word>)
    requires VoxelSized(v[..]) && BoxInGrid(b) && !EmptyBox(b) && |region| == BoxSize(b)
    modifies v
    ensures Edited(old(v[..]), v[..], b, region)
  {
    hide Copied, Edited, BoxSize, BoxIndex;
    ghost var was := v[..];
    CopyEnds(was, was, b, region);
    for z := b.z0 to b.z1
      invariant VoxelSized(v[..]) && Copied(was, v[..], b, region, Cell(b.x0, b.y0, z))
    {
      for y := b.y0 to b.y1
        invariant VoxelSized(v[..]) && Copied(was, v[..], b, region, Cell(b.x0, y, z))
      {
        for x := b.x0 to b.x1
          invariant VoxelSized(v[..]) && Copied(was, v[..], b, region, Cell(x, y, z))
        {
          var c := Cell(x, y, z);
          CopyStep(was, v[..], b, region, c);
          BoxIndexBound(b, c);
          v[Flat(WORLD_DIM, c)] := region[BoxIndex(b, c)];
        }
        CopyWrap(was, v[..], b, region, y, z);
      }
      CopyWrap(was, v[..], b, region, b.y0, z);
    }
    CopyEnds(was, v[..], b, region);
  }

  function BrickCorner(b: Cell): Cell {
    Cell(b.x * BRICK_DIM, b.y * BRICK_DIM, b.z * BRICK_DIM)
  }

  // Scanning the block of one brick in loop order meets all of its cells and no others matter.
  lemma ScanEnds(v: seq<Word>, b: Cell)
    requires VoxelSized(v) && InCube(BRICK_GRID, b)
    ensures var lo := BrickCorner(b);
      && !SolidBefore(v, b, lo)
      && (SolidBefore(v, b, Cell(lo.x, lo.y, lo.z + BRICK_DIM)) <==> BrickSolid(v, b))
  {
    var lo := BrickCorner(b);
    assert forall c :: BrickOf(c) == b ==> !Precedes(c, lo) && Precedes(c, Cell(lo.x, lo.y, lo.z + BRICK_DIM));
  }

  lemma ScanWrap(v: seq<Word>, b: Cell, y: int, z: int)
    requires VoxelSized(v) && InCube(BRICK_GRID, b)
    ensures var lo := BrickCorner(b);
      && (SolidBefore(v, b, Cell(lo.x + BRICK_DIM, y, z)) <==> SolidBefore(v, b, Cell(lo.x, y + 1, z)))
      && (SolidBefore(v, b, Cell(lo.x, lo.y + BRICK_DIM, z)) <==> SolidBefore(v, b, Cell(lo.x, lo.y, z + 1)))
  {
    var lo := BrickCorner(b);
    forall c | BrickOf(c) == b
      ensures Precedes(c, Cell(lo.x + BRICK_DIM, y, z)) <==> Precedes(c, Cell(lo.x, y + 1, z))
      ensures Precedes(c, Cell(lo.x, lo.y + BRICK_DIM, z)) <==> Precedes(c, Cell(lo.x, lo.y, z + 1))
    {
      assert lo.x <= c.x < lo.x + BRICK_DIM && lo.y <= c.y < lo.y + BRICK_DIM;
    }
  }

  // Rescans one brick, stopping at its first solid cell.
  method ScanBrick(v: array<Word>, b: Cell) returns (occ: Word)
    requires VoxelSized(v[..]) && InCube(BRICK_GRID, b)
    ensures occ == if BrickSolid(v[..], b) then 1 else 0
  {
    hide SolidBefore;
    ghost var voxels := v[..];
    var lo := BrickCorner(b);
    var hi := Cell(Min(WORLD_DIM, lo.x + BRICK_DIM), Min(WORLD_DIM, lo.y + BRICK_DIM),
                   Min(WORLD_DIM, lo.z + BRICK_DIM));
    ScanEnds(voxels, b);
    for z := lo.z to hi.z
      invariant !SolidBefore(voxels, b, Cell(lo.x, lo.y, z))
    {
      for y := lo.y to hi.y
        invariant !SolidBefore(voxels, b, Cell(lo.x, y, z))
      {
        for x := lo.x to hi.x
          invariant !SolidBefore(voxels, b, Cell(x, y, z))
        {
          var c := Cell(x, y, z);
          FlatBound(WORLD_DIM, c);
          SolidBeforeStep(voxels, b, c);
          if v[Flat(WORLD_DIM, c)] != 0 {
            assert BrickOf(c) == b && Peek(voxels, WORLD_DIM, c) != 0;
            return 1;
          }
        }
        ScanWrap(voxels, b, y, z);
      }
      ScanWrap(voxels, b, lo.y, z);
    }
    return 0;
  }

  // The bricks the box overlaps (exclusive maximum).
  function BrickBox(b: Box): Box {
    Box(b.x0 / BRICK_DIM, b.y0 / BRICK_DIM, b.z0 / BRICK_DIM,
        (b.x1 - 1) / BRICK_DIM + 1, (b.y1 - 1) / BRICK_DIM + 1, (b.z1 - 1) / BRICK_DIM + 1)
  }

  lemma BricksOverlapped(b: Box, k: Cell)
    requires !EmptyBox(b)
    ensures InBox(BrickBox(b), k) <==> exists c :: InBox(b, c) && BrickOf(c) == k
  {
    var lo := BrickCorner(k);
    var c := Cell(Max(b.x0, lo.x), Max(b.y0, lo.y), Max(b.z0, lo.z));
    if InBox(BrickBox(b), k) {
      assert InBox(b, c) && BrickOf(c) == k;
    }
  }

  // An edit leaves the bricks outside of the box's brick range as they were.
  lemma UntouchedBricks(was: seq<Word>, now: seq<Word>, b: Box, region: seq<Word>, k: Cell)
    requires BoxInGrid(b) && !EmptyBox(b) && |region| == BoxSize(b) && Edited(was, now, b, region)
    requires !InBox(BrickBox(b), k)
    ensures BrickSolid(now, k) <==> BrickSolid(was, k)
  {
    assert forall c :: InGrid(c) && BrickOf(c) == k ==> !InBox(b, c);
  }

  // The bricks before `next` in the box's brick range are exact for the edited grid.
  ghost predicate Rescanned(was: seq<Word>, now: seq<Word>, b: Box, bricks: seq<Word>, next: Cell) {
    && VoxelSized(was) && VoxelSized(now) && BrickSized(bricks)
    && forall k :: InCube(BRICK_GRID, k) ==>
         Peek(bricks, BRICK_GRID, k) ==
           if InBox(BrickBox(b), k) && Precedes(k, next) then (if BrickSolid(now, k) then 1 else 0)
           else (if BrickSolid(was, k) then 1 else 0)
  }

  lemma RescanStep(was: seq<Word>, now: seq<Word>, b: Box, bricks: seq<Word>, k: Cell, occ: Word)
    requires InCube(BRICK_GRID, k) && InBox(BrickBox(b), k)
    requires Rescanned(was, now, b, bricks, k) && occ == if BrickSolid(now, k) then 1 else 0
    ensures 0 <= Flat(BRICK_GRID, k) < |bricks|
    ensures Rescanned(was, now, b, bricks[Flat(BRICK_GRID, k) := occ], k.(x := k.x + 1))
  {
    FlatBound(BRICK_GRID, k);
    forall j | InCube(BRICK_GRID, j)
      ensures Peek(bricks[Flat(BRICK_GRID, k) := occ], BRICK_GRID, j)
        == if j == k then occ else Peek(bricks, BRICK_GRID, j)
    {
      PeekAfterWrite(bricks, BRICK_GRID, k, occ, j);
    }
  }

  lemma RescanWrap(was: seq<Word>, now: seq<Word>, b: Box, bricks: seq<Word>, y: int, z: int)
    ensures var r := BrickBox(b);
      && (Rescanned(was, now, b, bricks, Cell(r.x1, y, z)) ==> Rescanned(was, now, b, bricks, Cell(r.x0, y + 1, z)))
      && (Rescanned(was, now, b, bricks, Cell(r.x0, r.y1, z)) ==>
          Rescanned(was, now, b, bricks, Cell(r.x0, r.y0, z + 1)))
  {
  }

  lemma RescanEnds(was: seq<Word>, now: seq<Word>, b: Box, region: seq<Word>, bricks: seq<Word>)
    requires BoxInGrid(b) && !EmptyBox(b) && |region| == BoxSize(b) && Edited(was, now, b, region)
    ensures var r := BrickBox(b);
      && (BricksExact(was, bricks) ==> Rescanned(was, now, b, bricks, Cell(r.x0, r.y0, r.z0)))
      && (Rescanned(was, now, b, bricks, Cell(r.x0, r.y0, r.z1)) ==> BricksExact(now, bricks))
  {
    forall k | !InBox(BrickBox(b), k)
      ensures BrickSolid(now, k) <==> BrickSolid(was, k)
    {
      UntouchedBricks(was, now, b, region, k);
    }
  }

  // Refreshes only the bricks that overlap the edited box.
  method RescanBricks(v: array<Word>, bricks: array<Word>, b: Box, ghost was: seq<Word>, ghost region: seq<Word>)
    requires BoxInGrid(b) && !EmptyBox(b) && |region| == BoxSize(b) && v != bricks
    requires Edited(was, v[..], b, region) && BricksExact(was, bricks[..])
    modifies bricks
    ensures BricksExact(v[..], bricks[..])
  {
    ghost var now := v[..];
    var r := BrickBox(b);
    assert 0 <= r.x0 <= r.x1 <= BRICK_GRID && 0 <= r.y0 <= r.y1 <= BRICK_GRID && 0 <= r.z0 <= r.z1 <= BRICK_GRID;
    hide Rescanned, BricksExact, BrickSolid, Edited, BoxSize;
    RescanEnds(was, now, b, region, bricks[..]);
    for kz := r.z0 to r.z1
      invariant v[..] == now && Rescanned(was, now, b, bricks[..], Cell(r.x0, r.y0, kz))
    {
      for ky := r.y0 to r.y1
        invariant v[..] == now && Rescanned(was, now, b, bricks[..], Cell(r.x0, ky, kz))
      {
        for kx := r.x0 to r.x1
          invariant v[..] == now && Rescanned(was, now, b, bricks[..], Cell(kx, ky, kz))
        {
          var k := Cell(kx, ky, kz);
          var occ := ScanBrick(v, k);
          RescanStep(was, now, b, bricks[..], k, occ);
          bricks[Flat(BRICK_GRID, k)] := occ;
        }
        RescanWrap(was, now, b, bricks[..], ky, kz);
      }
      RescanWrap(was, now, b, bricks[..], r.y0, kz);
    }
    RescanEnds(was, now, b, region, bricks[..]);
  }
}
