// The abstract value of a voxel world, and what carving, bounding and baking do to it.
module Terrain {
  import opened Grid
  import opened Chunks

  // ------------------------------------------------------------------------------------------
  // Solid cells and their materials
  // ------------------------------------------------------------------------------------------

  type Voxels = map<Cell, Byte>

  function At(m: Voxels, c: Cell): Byte {
    if c in m then m[c] else 0
  }

  function Write(m: Voxels, c: Cell, mat: Byte): Voxels {
    if mat == 0 then m - {c} else m[c := mat]
  }

  ghost predicate Occupied(m: Voxels, cc: ChunkCoord) {
    exists c <- m :: WorldToChunk(c) == cc
  }

  // A write can only empty the chunk it addresses, and only by writing air.
  lemma OccupiedAfterWrite(m: Voxels, c: Cell, mat: Byte, cc: ChunkCoord)
    requires Occupied(m, cc) && (mat != 0 || cc != WorldToChunk(c))
    ensures Occupied(Write(m, c, mat), cc)
  {
    var d :| d in m && WorldToChunk(d) == cc;
    assert d in Write(m, c, mat);
  }

  function Dist2(a: Cell, b: Cell): int {
    var dx, dy, dz := a.x - b.x, a.y - b.y, a.z - b.z;
    dx * dx + dy * dy + dz * dz
  }

  predicate InBall(centre: Cell, radius: int, c: Cell) {
    radius >= 0 && Dist2(c, centre) <= radius * radius
  }

  // The cells a carve takes away.
  predicate Carved(centre: Cell, radius: int, c: Cell) {
    InGrid(c) && InBall(centre, radius, c)
  }

  function AfterCarve(m: Voxels, centre: Cell, radius: int): Voxels {
    map c | c in m && !Carved(centre, radius, c) :: m[c]
  }

  // The carve so far, when the loops are about to look at `next`.
  function CarvedBefore(m: Voxels, centre: Cell, radius: int, next: Cell): Voxels {
    map c | c in m && !(Carved(centre, radius, c) && Precedes(c, next)) :: m[c]
  }

  // Bounding box of a carve, clamped to the grid (exclusive maximum).
  function CarveBox(centre: Cell, radius: int): Box {
    Box(Max(0, centre.x - radius), Max(0, centre.y - radius), Max(0, centre.z - radius),
        Min(WORLD_DIM, centre.x + radius + 1), Min(WORLD_DIM, centre.y + radius + 1),
        Min(WORLD_DIM, centre.z + radius + 1))
  }

  lemma SquareBound(d: int, r: nat)
    requires d * d <= r * r
    ensures -(r as int) <= d <= r
  {
    if d > r {
      MulMonotone(r + 1, d, r + 1);
      MulMonotone(r + 1, d, d);
    } else if d < -(r as int) {
      MulMonotone(r + 1, -d, r + 1);
      MulMonotone(r + 1, -d, -d);
    }
  }

  lemma SquareNonNegative(d: int)
    ensures d * d >= 0
  {
  }

  lemma CarvedInBox(centre: Cell, radius: int, c: Cell)
    requires Carved(centre, radius, c)
    ensures InBox(CarveBox(centre, radius), c)
  {
    var dx, dy, dz := c.x - centre.x, c.y - centre.y, c.z - centre.z;
    ghost var xx, yy, zz := dx * dx, dy * dy, dz * dz;
    SquareNonNegative(dx);
    SquareNonNegative(dy);
    SquareNonNegative(dz);
    assert Dist2(c, centre) == xx + yy + zz;
    SquareBound(dx, radius);
    SquareBound(dy, radius);
    SquareBound(dz, radius);
  }

  // Running past the end of a row or a slice of the box, or before its start, carves nothing.
  lemma CarveWrap(m: Voxels, centre: Cell, radius: int, next: Cell, next': Cell)
    requires var b := CarveBox(centre, radius);
      || (next.x >= b.x1 && next' == Cell(b.x0, next.y + 1, next.z))
      || (next.x == b.x0 && next.y >= b.y1 && next' == Cell(b.x0, b.y0, next.z + 1))
    ensures CarvedBefore(m, centre, radius, next) == CarvedBefore(m, centre, radius, next')
  {
    forall c | Carved(centre, radius, c)
      ensures Precedes(c, next) <==> Precedes(c, next')
    {
      CarvedInBox(centre, radius, c);
    }
  }

  lemma CarveStep(m: Voxels, centre: Cell, radius: int, c: Cell)
    ensures var before := CarvedBefore(m, centre, radius, c);
            var after := CarvedBefore(m, centre, radius, c.(x := c.x + 1));
            if Carved(centre, radius, c) && c in before
            then after == Write(before, c, 0) && |after| == |before| - 1
            else after == before
  {
    var before := CarvedBefore(m, centre, radius, c);
    var after := CarvedBefore(m, centre, radius, c.(x := c.x + 1));
    forall d
      ensures Precedes(d, c.(x := c.x + 1)) <==> Precedes(d, c) || d == c
    {
    }
    if Carved(centre, radius, c) && c in before {
      assert after == before - {c};
      assert before.Keys == after.Keys + {c};
    } else {
      assert after == before;
    }
  }

  lemma CarveEnds(m: Voxels, centre: Cell, radius: int, next: Cell)
    ensures var b := CarveBox(centre, radius);
      next == Cell(b.x0, b.y0, b.z0) ==> CarvedBefore(m, centre, radius, next) == m
    ensures next.z >= CarveBox(centre, radius).z1 ==>
      CarvedBefore(m, centre, radius, next) == AfterCarve(m, centre, radius)
  {
    forall c | Carved(centre, radius, c)
      ensures InBox(CarveBox(centre, radius), c)
    {
      CarvedInBox(centre, radius, c);
    }
  }

  // ------------------------------------------------------------------------------------------
  // Bounds at chunk granularity
  // ------------------------------------------------------------------------------------------

  function ChunkBox(cc: ChunkCoord): Box {
    Box(cc.x * CHUNK_SIZE, cc.y * CHUNK_SIZE, cc.z * CHUNK_SIZE,
        cc.x * CHUNK_SIZE + CHUNK_SIZE, cc.y * CHUNK_SIZE + CHUNK_SIZE, cc.z * CHUNK_SIZE + CHUNK_SIZE)
  }

  // It holds the chunk's cells and no others.
  lemma ChunkBoxHolds(cc: ChunkCoord, c: Cell)
    ensures InBox(ChunkBox(cc), c) <==> WorldToChunk(c) == cc
  {
    AddressRoundTrip(c);
    if InBox(ChunkBox(cc), c) {
      AddressUnique(cc, Cell(c.x - cc.x * CHUNK_SIZE, c.y - cc.y * CHUNK_SIZE, c.z - cc.z * CHUNK_SIZE));
    }
    hide WorldToChunk, ChunkLocal;
  }

  // The least box that holds the chunks: each of its sides touches one of them.
  ghost predicate BoundsOf(s: set<ChunkCoord>, b: Box) {
    && (forall cc <- s :: var k := ChunkBox(cc);
          b.x0 <= k.x0 && b.y0 <= k.y0 && b.z0 <= k.z0 && k.x1 <= b.x1 && k.y1 <= b.y1 && k.z1 <= b.z1)
    && (exists cc <- s :: ChunkBox(cc).x0 == b.x0) && (exists cc <- s :: ChunkBox(cc).x1 == b.x1)
    && (exists cc <- s :: ChunkBox(cc).y0 == b.y0) && (exists cc <- s :: ChunkBox(cc).y1 == b.y1)
    && (exists cc <- s :: ChunkBox(cc).z0 == b.z0) && (exists cc <- s :: ChunkBox(cc).z1 == b.z1)
  }

  // What Bounds reports.
  ghost predicate SolidBounds(m: Voxels, b: Box) {
    if m == map[] then b == Box(0, 0, 0, 0, 0, 0) else ChunkBounds(m, b)
  }

  lemma SolidBoundsUnique(m: Voxels, b: Box, b': Box)
    requires SolidBounds(m, b) && SolidBounds(m, b')
    ensures b == b'
  {
  }

  function Join(a: Box, b: Box): Box {
    Box(Min(a.x0, b.x0), Min(a.y0, b.y0), Min(a.z0, b.z0), Max(a.x1, b.x1), Max(a.y1, b.y1), Max(a.z1, b.z1))
  }

  lemma BoundsOfOne(cc: ChunkCoord)
    ensures BoundsOf({cc}, ChunkBox(cc))
  {
    assert cc in {cc};
  }

  lemma BoundsGrow(s: set<ChunkCoord>, b: Box, cc: ChunkCoord)
    requires BoundsOf(s, b)
    ensures BoundsOf(s + {cc}, Join(b, ChunkBox(cc)))
  {
    var t := s + {cc};
    assert cc in t && forall cd <- s :: cd in t;
  }

  // The box holds every solid cell, and its sides are sides of chunks that hold one.
  ghost predicate ChunkBounds(m: Voxels, b: Box) {
    (forall c <- m :: InBox(b, c)) && BoundsOf(set c <- m :: WorldToChunk(c), b)
  }

  lemma BoundsHold(m: Voxels, s: set<ChunkCoord>, b: Box)
    requires s == set c <- m :: WorldToChunk(c)
    requires if s == {} then b == Box(0, 0, 0, 0, 0, 0) else BoundsOf(s, b)
    ensures SolidBounds(m, b)
  {
    forall c <- m
      ensures WorldToChunk(c) in s && InBox(b, c)
    {
      AddressRoundTrip(c);
      assert WorldToChunk(c) in s;
      var k := ChunkBox(WorldToChunk(c));
      assert InBox(k, c);
    }
    if m != map[] {
      var c :| c in m;
      assert s != {};
    }
  }

  // ------------------------------------------------------------------------------------------
  // Baking the world into a flat grid
  // ------------------------------------------------------------------------------------------

  // `g` holds the material of every cell of the cube.
  ghost predicate Bakes(m: Voxels, g: seq<Word>, dim: nat) {
    |g| == dim * dim * dim && forall c :: InCube(dim, c) ==> Peek(g, dim, c) == At(m, c)
  }

  // ... as far as the cells of the chunks in `done` go; the rest is still zero.
  ghost predicate BakedChunks(m: Voxels, done: set<ChunkCoord>, g: seq<Word>, dim: nat) {
    && |g| == dim * dim * dim
    && forall c :: InCube(dim, c) ==> Peek(g, dim, c) == if WorldToChunk(c) in done then At(m, c) else 0
  }

  // The chunk's array agrees with the world on the chunk's cells.
  ghost predicate ChunkHolds(m: Voxels, cc: ChunkCoord, mats: seq<Byte>) {
    |mats| == CHUNK_VOXELS && forall c :: WorldToChunk(c) == cc ==> mats[Slot(c)] == At(m, c)
  }

  lemma BakedNone(m: Voxels, g: seq<Word>, dim: nat)
    requires |g| == dim * dim * dim && forall i :: 0 <= i < |g| ==> g[i] == 0
    ensures BakedChunks(m, {}, g, dim)
  {
    forall c | InCube(dim, c)
      ensures Peek(g, dim, c) == 0
    {
      FlatBound(dim, c);
      assert Peek(g, dim, c) == g[Flat(dim, c)];
    }
  }

  lemma BakedAll(m: Voxels, done: set<ChunkCoord>, g: seq<Word>, dim: nat)
    requires BakedChunks(m, done, g, dim)
    requires done == set c <- m :: WorldToChunk(c)
    ensures Bakes(m, g, dim)
  {
  }

  lemma MulNonNegative(dim: nat)
    ensures dim * dim * dim >= 0
  {
  }

  // What `now` holds once the cells of chunk cc before local cell `next` were copied over `was`.
  ghost predicate PartlyBaked(mats: seq<Byte>, cc: ChunkCoord, dim: nat, was: seq<Word>, now: seq<Word>, next: Cell)
    requires |mats| == CHUNK_VOXELS
  {
    && |was| == |now| == dim * dim * dim
    && forall c :: InCube(dim, c) ==>
         Peek(now, dim, c) ==
           if WorldToChunk(c) == cc && Precedes(ChunkLocal(c), next) && mats[Slot(c)] != 0 then mats[Slot(c)]
           else Peek(was, dim, c)
  }

  lemma BakedChunksStep(m: Voxels, mats: seq<Byte>, cc: ChunkCoord, done: set<ChunkCoord>, was: seq<Word>,
                        now: seq<Word>, dim: nat)
    requires ChunkHolds(m, cc, mats)
    requires BakedChunks(m, done, was, dim) && PartlyBaked(mats, cc, dim, was, now, Cell(0, 0, CHUNK_SIZE))
    requires cc !in done
    ensures BakedChunks(m, done + {cc}, now, dim)
  {
    forall c | InCube(dim, c)
      ensures Peek(now, dim, c) == if WorldToChunk(c) in done + {cc} then At(m, c) else 0
    {
      AddressRoundTrip(c);
    }
  }

  lemma PartlyBakedStep(mats: seq<Byte>, cc: ChunkCoord, dim: nat, was: seq<Word>, now: seq<Word>, local: Cell)
    requires |mats| == CHUNK_VOXELS && InCube(CHUNK_SIZE, local)
    requires PartlyBaked(mats, cc, dim, was, now, local)
    ensures var c := CellAt(cc, local); var next := local.(x := local.x + 1);
      && (!InCube(dim, c) || mats[Slot(c)] == 0 ==> PartlyBaked(mats, cc, dim, was, now, next))
      && (InCube(dim, c) && mats[Slot(c)] != 0 ==>
            0 <= Flat(dim, c) < |now| && PartlyBaked(mats, cc, dim, was, now[Flat(dim, c) := mats[Slot(c)]], next))
  {
    var c, next := CellAt(cc, local), local.(x := local.x + 1);
    AddressUnique(cc, local);
    forall d
      ensures WorldToChunk(d) == cc ==> (Precedes(ChunkLocal(d), next) <==> Precedes(ChunkLocal(d), local) || d == c)
    {
      if WorldToChunk(d) == cc && ChunkLocal(d) == local {
        SlotInjective(c, d);
      }
    }
    if InCube(dim, c) && mats[Slot(c)] != 0 {
      forall d | InCube(dim, d)
        ensures 0 <= Flat(dim, c) < |now|
        ensures Peek(now[Flat(dim, c) := mats[Slot(c)]], dim, d) == if d == c then mats[Slot(c)] else Peek(now, dim, d)
      {
        PeekAfterWrite(now, dim, c, mats[Slot(c)], d);
      }
    }
  }

  lemma BakeNothing(mats: seq<Byte>, cc: ChunkCoord, dim: nat, was: seq<Word>)
    requires |mats| == CHUNK_VOXELS && |was| == dim * dim * dim
    ensures PartlyBaked(mats, cc, dim, was, was, Cell(0, 0, 0))
  {
    forall c
      ensures !Precedes(ChunkLocal(c), Cell(0, 0, 0))
    {
      AddressRoundTrip(c);
    }
  }

  // Local coordinates end at 32, so the end of a row is the start of the next one.
  lemma PartlyBakedWrap(mats: seq<Byte>, cc: ChunkCoord, dim: nat, was: seq<Word>, now: seq<Word>, y: nat, z: nat)
    requires |mats| == CHUNK_VOXELS
    ensures PartlyBaked(mats, cc, dim, was, now, Cell(CHUNK_SIZE, y, z)) ==>
      PartlyBaked(mats, cc, dim, was, now, Cell(0, y + 1, z))
    ensures PartlyBaked(mats, cc, dim, was, now, Cell(0, CHUNK_SIZE, z)) ==>
      PartlyBaked(mats, cc, dim, was, now, Cell(0, 0, z + 1))
  {
    forall c
      ensures InCube(CHUNK_SIZE, ChunkLocal(c))
    {
      AddressRoundTrip(c);
    }
  }
}
