// Chunk addressing. C++ division truncates toward zero, so negative coordinates need care.
module Chunks {
  import opened Grid

  const CHUNK_SIZE: nat := 32
  const CHUNK_VOXELS: nat := 32768

  datatype ChunkCoord = ChunkCoord(x: int, y: int, z: int)

  function Abs(a: int): nat { if a < 0 then -a else a }

  function TruncDiv(a: int, b: int): int
    requires b != 0
  {
    if (a < 0) == (b < 0) then Abs(a) / Abs(b) else -(Abs(a) / Abs(b))
  }

  function TruncMod(a: int, b: int): int
    requires b != 0
  {
    a - b * TruncDiv(a, b)
  }

  // a ^ b is negative exactly when the signs of a and b differ.
  function FloorDiv(a: int, b: int): int
    requires b != 0
  {
    TruncDiv(a, b) - (if TruncMod(a, b) != 0 && (a < 0) != (b < 0) then 1 else 0)
  }

  function LocalMod(v: int, m: int): int
    requires m != 0
  {
    var r := TruncMod(v, m);
    if r < 0 then r + m else r
  }

  // Together the two give the floor quotient and its remainder, for negative operands too.
  lemma FloorDivIsFloor(a: int, b: int)
    requires b > 0
    ensures a == b * FloorDiv(a, b) + LocalMod(a, b) && 0 <= LocalMod(a, b) < b
  {
    var q := Abs(a) / Abs(b);
    assert Abs(a) == b * q + Abs(a) % b;
    assert b * (-q) == -(b * q);
    assert b * (-q - 1) == -(b * q) - b;
  }

  function WorldToChunk(c: Cell): ChunkCoord {
    ChunkCoord(FloorDiv(c.x, CHUNK_SIZE), FloorDiv(c.y, CHUNK_SIZE), FloorDiv(c.z, CHUNK_SIZE))
  }

  function ChunkLocal(c: Cell): Cell {
    Cell(LocalMod(c.x, CHUNK_SIZE), LocalMod(c.y, CHUNK_SIZE), LocalMod(c.z, CHUNK_SIZE))
  }

  function CellAt(cc: ChunkCoord, local: Cell): Cell {
    Cell(cc.x * CHUNK_SIZE + local.x, cc.y * CHUNK_SIZE + local.y, cc.z * CHUNK_SIZE + local.z)
  }

  // Chunk coordinate and local coordinate together address every cell exactly once.
  lemma AddressRoundTrip(c: Cell)
    ensures InCube(CHUNK_SIZE, ChunkLocal(c)) && CellAt(WorldToChunk(c), ChunkLocal(c)) == c
  {
    FloorDivIsFloor(c.x, CHUNK_SIZE);
    FloorDivIsFloor(c.y, CHUNK_SIZE);
    FloorDivIsFloor(c.z, CHUNK_SIZE);
  }

  lemma AddressUnique(cc: ChunkCoord, local: Cell)
    requires InCube(CHUNK_SIZE, local)
    ensures WorldToChunk(CellAt(cc, local)) == cc && ChunkLocal(CellAt(cc, local)) == local
  {
    var c := CellAt(cc, local);
    FloorDivIsFloor(c.x, CHUNK_SIZE);
    FloorDivIsFloor(c.y, CHUNK_SIZE);
    FloorDivIsFloor(c.z, CHUNK_SIZE);
  }

  // Slot of a cell inside its chunk's flat array.
  function Slot(c: Cell): (i: nat)
    ensures i < CHUNK_VOXELS
  {
    AddressRoundTrip(c);
    FlatBound(CHUNK_SIZE, ChunkLocal(c));
    Flat(CHUNK_SIZE, ChunkLocal(c))
  }

  lemma SlotInjective(c: Cell, d: Cell)
    requires WorldToChunk(c) == WorldToChunk(d) && Slot(c) == Slot(d)
    ensures c == d
  {
    AddressRoundTrip(c);
    AddressRoundTrip(d);
    FlatInjective(CHUNK_SIZE, ChunkLocal(c), ChunkLocal(d));
  }

  lemma SlotSurjective(cc: ChunkCoord, i: nat) returns (c: Cell)
    requires i < CHUNK_VOXELS
    ensures WorldToChunk(c) == cc && Slot(c) == i
  {
    FlatSurjective(CHUNK_SIZE, i);
    c := CellAt(cc, Unflat(CHUNK_SIZE, i));
    AddressUnique(cc, Unflat(CHUNK_SIZE, i));
  }

  // Within a chunk the slots follow the order of nested z, y, x loops.
  lemma SlotFollowsLoops(c: Cell, d: Cell)
    requires WorldToChunk(c) == WorldToChunk(d)
    ensures Slot(c) < Slot(d) <==> Precedes(c, d)
  {
    AddressRoundTrip(c);
    AddressRoundTrip(d);
    FlatFollowsLoops(CHUNK_SIZE, ChunkLocal(c), ChunkLocal(d));
    hide ChunkLocal, WorldToChunk, Flat;
  }
}
