// The .vox importer: a reader that advances through a buffer and the chunk walk that fills a scene.
module VoxImport {
  import opened Grid
  import opened Palettes
  import opened VoxelWorlds
  import opened VoxFormat

  class Reader {
    const data: Bytes
    var pos: nat

    constructor (bytes: Bytes)
      ensures data == bytes && pos == 0
    {
      data, pos := bytes, 0;
    }

    predicate CanRead(n: nat)
      reads this
    {
      pos + n <= |data|
    }

    method U8() returns (b: Byte)
      modifies this
      ensures if old(CanRead(1)) then b == data[old(pos)] && pos == old(pos) + 1 else b == 0 && pos == |data| + 1
    {
      if !CanRead(1) {
        pos := |data| + 1;
        return 0;
      }
      b := data[pos];
      pos := pos + 1;
    }

    method U32() returns (w: Word)
      requires pos <= |data| + 1
      modifies this
      ensures Read(w, pos) == ReadU32(data, old(pos))
    {
      if !CanRead(4) {
        pos := |data| + 1;
        return 0;
      }
      w := U32At(data, pos);
      pos := pos + 4;
    }

    method Skip(n: nat)
      modifies this
      ensures pos == old(pos) + n
    {
      pos := pos + n;
    }

    method ReadTag() returns (tag: Option<Bytes>)
      modifies this
      ensures if old(CanRead(4)) then tag == Some(data[old(pos)..old(pos) + 4]) && pos == old(pos) + 4
              else tag == None && pos == old(pos)
    {
      if !CanRead(4) {
        return None;
      }
      tag := Some(data[pos..pos + 4]);
      pos := pos + 4;
    }

    // A length-prefixed string, cut short where the data ends.
    method Str() returns (s: Bytes)
      requires pos <= |data| + 1
      modifies this
      ensures Read(s, pos) == ReadString(data, old(pos))
    {
      ghost var start := pos;
      var len := U32();
      ghost var from := pos;
      s := [];
      var i := 0;
      while i < len && CanRead(1)
        invariant i == |s| <= len && pos == from + i && (i > 0 ==> pos <= |data|)
        invariant i > 0 ==> s == data[from..from + i]
        invariant i == 0 ==> s == []
        decreases len - i
      {
        var b := U8();
        s := s + [b];
        i := i + 1;
      }
    }

    method Dict(n: Word, selfEnd: nat) returns (pairs: seq<Pair>)
      requires pos <= |data| + 1
      modifies this
      ensures Read(pairs, pos) == ReadDict(data, old(pos), n, selfEnd, [])
    {
      ghost var start := pos;
      pairs := [];
      var i := 0;
      while i < n && pos < selfEnd
        invariant i <= n && pos <= |data| + 1
        invariant ReadDict(data, start, n, selfEnd, []) == ReadDict(data, pos, n - i, selfEnd, pairs)
      {
        var key := Str();
        var value := Str();
        pairs := pairs + [Pair(key, value)];
        i := i + 1;
      }
    }

    method Colours(palette: Palette) returns (result: Palette)
      requires pos <= |data| + 1
      modifies this
      ensures Read(result, pos) == ReadColours(data, old(pos), 0, palette)
    {
      ghost var start := pos;
      result := palette;
      var i := 0;
      while i < 256 && CanRead(4)
        invariant 0 <= i <= 256 && pos <= |data| + 1
        invariant ReadColours(data, start, 0, palette) == ReadColours(data, pos, i, result)
      {
        var rgba := U32();
        if i < 255 {
          result := result[i + 1 := rgba];
        }
        i := i + 1;
      }
    }
  }

  class VoxScene {
    const world: VoxelWorld
    var palette: Palette
    var sizeX: Word
    var sizeY: Word
    var sizeZ: Word
    var voxelCount: nat

    ghost predicate Valid()
      reads this, world, world.Repr
    {
      world.Valid() && this !in world.Repr
    }

    constructor ()
      ensures Valid() && fresh(world.Repr) && world.Contents == map[]
    {
      world := new VoxelWorld();
      palette, sizeX, sizeY, sizeZ, voxelCount := EMPTY_PALETTE, 0, 0, 0, 0;
    }

    ghost function Collected(alpha: seq<Byte>): Parsed
      reads this, world
    {
      Parsed(sizeX, sizeY, sizeZ, world.Contents, voxelCount, palette, alpha)
    }

    // The loop over an XYZI chunk.
    method Dots(r: Reader, n: Word, ghost alpha: seq<Byte>)
      requires Valid() && r.pos <= |r.data| + 1 && r !in world.Repr
      modifies r, this`voxelCount, world.Repr
      ensures Valid() && fresh(world.Repr - old(world.Repr))
      ensures Read(Collected(alpha), r.pos) == ReadVoxels(r.data, old(r.pos), n, old(Collected(alpha)))
    {
      hide VoxelWorld.Valid;
      ghost var start, before := r.pos, Collected(alpha);
      var i := 0;
      while i < n
        invariant i <= n && Valid() && fresh(world.Repr - old(world.Repr)) && r.pos <= |r.data| + 1 && r !in world.Repr
        invariant sizeX == before.sizeX && sizeY == before.sizeY && sizeZ == before.sizeZ && palette == before.palette
        invariant ReadVoxels(r.data, start, n, before) == ReadVoxels(r.data, r.pos, n - i, Collected(alpha))
      {
        if !r.CanRead(4) {
          return;
        }
        OneDot(r, alpha);
        i := i + 1;
      }
    }

    // One voxel of a chunk.
    method OneDot(r: Reader, ghost alpha: seq<Byte>)
      requires Valid() && r.pos + 4 <= |r.data| && r !in world.Repr
      modifies r, this`voxelCount, world.Repr
      ensures Valid() && fresh(world.Repr - old(world.Repr)) && r.pos == old(r.pos) + 4
      ensures var p := old(r.pos);
        Collected(alpha) == PutVoxel(old(Collected(alpha)), r.data[p], r.data[p + 1], r.data[p + 2], r.data[p + 3])
    {
      hide VoxelWorld.Valid;
      var x := r.U8();
      var y := r.U8();
      var z := r.U8();
      var m := r.U8();
      if m == 0 {
        m := 1;
      }
      world.SetVoxel(Cell(x, z, y), m);
      voxelCount := voxelCount + 1;
    }

    // One chunk's body.
    method Chunk(r: Reader, tag: Bytes, selfEnd: nat, emission: Emission, alpha: seq<Byte>) returns (alpha': seq<Byte>)
      requires Valid() && r.pos <= |r.data| + 1 && r !in world.Repr
      modifies r, this, world.Repr
      ensures Valid() && fresh(world.Repr - old(world.Repr)) && |alpha'| == |alpha|
      ensures Read(Collected(alpha'), r.pos)
        == ReadChunk(r.data, old(r.pos), tag, selfEnd, emission, old(Collected(alpha)))
    {
      hide VoxelWorld.Valid, ReadVoxels, ReadColours, ReadDict;
      alpha' := alpha;
      if tag == SIZE {
        var x := r.U32();
        var y := r.U32();
        var z := r.U32();
        sizeX, sizeY, sizeZ := x, y, z;
      } else if tag == XYZI {
        var n := r.U32();
        Dots(r, n, alpha);
      } else if tag == RGBA {
        palette := r.Colours(palette);
      } else if tag == MATL {
        var id := r.U32();
        var n := r.U32();
        var pairs := r.Dict(n, selfEnd);
        var a := emission(pairs);
        if a.Some? && id < |alpha| {
          alpha' := alpha[id := a.value];
        }
      }
    }

    // The walk over all chunks; every turn moves on by at least a chunk header.
    method WalkChunks(r: Reader, emission: Emission) returns (alpha: seq<Byte>)
      requires Valid() && r !in world.Repr
      modifies r, this, world.Repr
      ensures Valid() && fresh(world.Repr - old(world.Repr)) && |alpha| == 256
      ensures Collected(alpha) == Walk(r.data, old(r.pos), emission, old(Collected(NoAlpha())))
    {
      hide VoxelWorld.Valid, ReadChunk, U32At;
      ghost var start, before := r.pos, Collected(NoAlpha());
      alpha := NoAlpha();
      while r.CanRead(12)
        invariant Valid() && fresh(world.Repr - old(world.Repr)) && r !in world.Repr && |alpha| == 256
        invariant Walk(r.data, start, emission, before) == Walk(r.data, r.pos, emission, Collected(alpha))
        decreases |r.data| - r.pos
      {
        var tag := r.ReadTag();
        var selfBytes := r.U32();
        var childBytes := r.U32();
        var selfEnd := r.pos + selfBytes;
        alpha := Chunk(r, tag.value, selfEnd, emission, alpha);
        if r.pos < selfEnd {
          r.Skip(selfEnd - r.pos);
        }
      }
    }

    // Fills the scene from a buffer.
    method LoadVoxFromMemory(data: Bytes, emission: Emission) returns (ok: bool)
      requires Valid()
      modifies this, world.Repr
      ensures Valid() && fresh(world.Repr - old(world.Repr))
      ensures var parsed := Parse(data, emission, old(world.Contents));
        && (ok <==> parsed.Some?)
        && (ok ==> var p := parsed.value;
             && |p.alpha| == 256 && palette == WithAlpha(p.palette, p.alpha)
             && Collected(p.alpha) == p.(palette := palette))
      ensures !ok ==> world.Contents == old(world.Contents)
    {
      hide VoxelWorld.Valid, Walk, DefaultPalette, NoAlpha, WithAlpha;
      if |data| < 12 {
        return false;
      }
      var r := new Reader(data);
      var magic := r.ReadTag();
      if magic == None || magic.value != MAGIC {
        return false;
      }
      var version := r.U32();
      var main := r.ReadTag();
      if main == None || main.value != MAIN {
        return false;
      }
      var selfBytes := r.U32();
      var childBytes := r.U32();
      palette := DefaultPalette();
      sizeX, sizeY, sizeZ, voxelCount := 0, 0, 0, 0;
      var alpha := WalkChunks(r, emission);
      palette := WithAlpha(palette, alpha);
      return true;
    }
  }
}
