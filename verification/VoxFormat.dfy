// The .vox file format: what the importer makes of any bytes.
module VoxFormat {
  import opened Grid
  import opened Palettes
  import opened Terrain

  type Bytes = seq<Byte>

  // One entry of a material dictionary.
  datatype Pair = Pair(key: Bytes, value: Bytes)

  // What a material dictionary says about emission, as the alpha byte it ends up as.
  type Emission = seq<Pair> -> Option<Byte>

  // What the parser collects.
  datatype Parsed = Parsed(sizeX: Word, sizeY: Word, sizeZ: Word, voxels: Voxels, count: nat, palette: Palette,
                           alpha: seq<Byte>)

  const MAGIC: Bytes := [86, 79, 88, 32]
  const MAIN: Bytes := [77, 65, 73, 78]
  const SIZE: Bytes := [83, 73, 90, 69]
  const XYZI: Bytes := [88, 89, 90, 73]
  const RGBA: Bytes := [82, 71, 66, 65]
  const MATL: Bytes := [77, 65, 84, 76]

  // A value read, and the position after it.
  datatype Read<T> = Read(value: T, pos: nat)

  predicate Within(data: Bytes, pos: nat) { pos <= |data| + 1 }

  function U32At(data: Bytes, pos: nat): Word
    requires pos + 4 <= |data|
  {
    var b0: int, b1: int, b2: int, b3: int := data[pos], data[pos + 1], data[pos + 2], data[pos + 3];
    b0 + 0x100 * b1 + 0x1_0000 * b2 + 0x100_0000 * b3
  }

  // A read past the end yields 0 and parks the position behind the data.
  function ReadU32(data: Bytes, pos: nat): (r: Read<Word>)
    requires Within(data, pos)
    ensures pos <= r.pos && Within(data, r.pos)
  {
    if pos + 4 <= |data| then Read(U32At(data, pos), pos + 4) else Read(0, |data| + 1)
  }

  // Bottom up, y and z change places, and material 0 becomes 1.
  function PutVoxel(p: Parsed, x: Byte, y: Byte, z: Byte, m: Byte): Parsed {
    p.(voxels := Write(p.voxels, Cell(x, z, y), if m == 0 then 1 else m), count := p.count + 1)
  }

  function ReadVoxels(data: Bytes, pos: nat, n: nat, p: Parsed): (r: Read<Parsed>)
    requires Within(data, pos)
    ensures pos <= r.pos && Within(data, r.pos)
    decreases n
  {
    if n == 0 || pos + 4 > |data| then Read(p, pos)
    else ReadVoxels(data, pos + 4, n - 1, PutVoxel(p, data[pos], data[pos + 1], data[pos + 2], data[pos + 3]))
  }

  function PutColour(palette: Palette, i: nat, rgba: Word): Palette {
    if i < 255 then palette[i + 1 := rgba] else palette
  }

  function ReadColours(data: Bytes, pos: nat, i: nat, palette: Palette): (r: Read<Palette>)
    requires Within(data, pos)
    ensures pos <= r.pos && Within(data, r.pos)
    decreases 256 - i
  {
    if i >= 256 || pos + 4 > |data| then Read(palette, pos)
    else ReadColours(data, pos + 4, i + 1, PutColour(palette, i, U32At(data, pos)))
  }

  function ReadString(data: Bytes, pos: nat): (r: Read<Bytes>)
    requires Within(data, pos)
    ensures pos <= r.pos && Within(data, r.pos)
  {
    var len := ReadU32(data, pos);
    var k := Min(len.value, Max(|data| - len.pos, 0));
    if k > 0 then Read(data[len.pos..len.pos + k], len.pos + k) else Read([], len.pos)
  }

  function ReadDict(data: Bytes, pos: nat, n: nat, selfEnd: nat, pairs: seq<Pair>): (r: Read<seq<Pair>>)
    requires Within(data, pos)
    ensures pos <= r.pos && Within(data, r.pos)
    decreases n
  {
    if n == 0 || pos >= selfEnd then Read(pairs, pos)
    else
      var key := ReadString(data, pos);
      var value := ReadString(data, key.pos);
      ReadDict(data, value.pos, n - 1, selfEnd, pairs + [Pair(key.value, value.value)])
  }

  function PutMaterial(p: Parsed, id: Word, pairs: seq<Pair>, emission: Emission): Parsed {
    var a := emission(pairs);
    if a.Some? && id < |p.alpha| then p.(alpha := p.alpha[id := a.value]) else p
  }

  function ReadChunk(data: Bytes, pos: nat, tag: Bytes, selfEnd: nat, emission: Emission, p: Parsed): (r: Read<Parsed>)
    requires Within(data, pos)
    ensures pos <= r.pos && Within(data, r.pos)
  {
    if tag == SIZE then
      var x := ReadU32(data, pos);
      var y := ReadU32(data, x.pos);
      var z := ReadU32(data, y.pos);
      Read(p.(sizeX := x.value, sizeY := y.value, sizeZ := z.value), z.pos)
    else if tag == XYZI then
      var n := ReadU32(data, pos);
      ReadVoxels(data, n.pos, n.value, p)
    else if tag == RGBA then
      var c := ReadColours(data, pos, 0, p.palette);
      Read(p.(palette := c.value), c.pos)
    else if tag == MATL then
      var id := ReadU32(data, pos);
      var n := ReadU32(data, id.pos);
      var d := ReadDict(data, n.pos, n.value, selfEnd, []);
      Read(PutMaterial(p, id.value, d.value, emission), d.pos)
    else
      Read(p, pos)
  }

  // The chunk walk: every turn reads at least the twelve bytes of a chunk header.
  function Walk(data: Bytes, pos: nat, emission: Emission, p: Parsed): Parsed
    decreases |data| - pos
  {
    if pos + 12 > |data| then p
    else
      var selfEnd := pos + 12 + U32At(data, pos + 4);
      var r := ReadChunk(data, pos + 12, data[pos..pos + 4], selfEnd, emission, p);
      Walk(data, Max(r.pos, selfEnd), emission, r.value)
  }

  function DefaultPalette(): Palette {
    seq(PALETTE_SIZE, i => if 0 < i < 256 then 0xFF00_0000 + 0x1_0000 * i + 0x100 * i + i else 0)
  }

  function NoAlpha(): seq<Byte> {
    seq(256, _ => 0)
  }

  // The scene before the chunks are read; voxels that are there already stay.
  function Blank(voxels: Voxels): Parsed {
    Parsed(0, 0, 0, voxels, 0, DefaultPalette(), NoAlpha())
  }

  function AlphaOver(rgb: Word, a: int): Word
    requires 0 <= a < 0x100
  {
    rgb % 0x100_0000 + 0x100_0000 * a
  }

  // The alpha byte of every palette entry carries the material's emission.
  function WithAlpha(palette: Palette, alpha: seq<Byte>): Palette
    requires |alpha| == 256
  {
    seq(PALETTE_SIZE, i requires 0 <= i < PALETTE_SIZE && |alpha| == 256 => AlphaOver(palette[i], alpha[i]))
  }

  function Parse(data: Bytes, emission: Emission, voxels: Voxels): Option<Parsed> {
    if |data| < 12 || data[..4] != MAGIC || data[8..12] != MAIN then None
    else
      var selfBytes := ReadU32(data, 12);
      var childBytes := ReadU32(data, selfBytes.pos);
      Some(Walk(data, childBytes.pos, emission, Blank(voxels)))
  }
}
