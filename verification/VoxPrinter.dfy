// A printer for .vox files, and the proof that the parser undoes it.
module VoxPrinter {
  import opened Grid
  import opened Palettes
  import opened Terrain
  import opened VoxFormat

  datatype Dot = Dot(x: Byte, y: Byte, z: Byte, m: Byte)

  datatype Content =
    | Size(x: Word, y: Word, z: Word)
    | Dots(dots: seq<Dot>)
    | Colours(colours: seq<Word>)
    | Material(id: Word, pairs: seq<Pair>)
    | Unknown(tag: Bytes, body: Bytes)

  // A chunk, with whatever a newer writer may have appended to its content.
  datatype Block = Block(content: Content, extra: Bytes, childBytes: Word)

  function PrintWord(w: Word): Bytes {
    [w % 0x100, w / 0x100 % 0x100, w / 0x1_0000 % 0x100, w / 0x100_0000]
  }

  function PrintDots(dots: seq<Dot>): Bytes {
    if dots == [] then [] else [dots[0].x, dots[0].y, dots[0].z, dots[0].m] + PrintDots(dots[1..])
  }

  function PrintWords(words: seq<Word>): Bytes {
    if words == [] then [] else PrintWord(words[0]) + PrintWords(words[1..])
  }

  predicate Countable(n: nat) { n < 0x1_0000_0000 }

  function PrintString(s: Bytes): Bytes
    requires Countable(|s|)
  {
    PrintWord(|s|) + s
  }

  predicate PairsFine(pairs: seq<Pair>) {
    forall i :: 0 <= i < |pairs| ==> Countable(|pairs[i].key|) && Countable(|pairs[i].value|)
  }

  function PrintPairs(pairs: seq<Pair>): Bytes
    requires PairsFine(pairs)
  {
    if pairs == [] then [] else PrintString(pairs[0].key) + (PrintString(pairs[0].value) + PrintPairs(pairs[1..]))
  }

  predicate WellFormed(b: Block) {
    && (match b.content
        case Size(_, _, _) => true
        case Dots(dots) => Countable(|dots|)
        case Colours(colours) => |colours| == 256
        case Material(_, pairs) => Countable(|pairs|) && PairsFine(pairs)
        case Unknown(tag, _) => |tag| == 4 && tag !in {SIZE, XYZI, RGBA, MATL})
    && Countable(|Body(b.content)| + |b.extra|)
  }

  function Tag(c: Content): Bytes {
    match c
    case Size(_, _, _) => SIZE
    case Dots(_) => XYZI
    case Colours(_) => RGBA
    case Material(_, _) => MATL
    case Unknown(tag, _) => tag
  }

  function Body(c: Content): Bytes {
    match c
    case Size(x, y, z) => PrintWord(x) + (PrintWord(y) + PrintWord(z))
    case Dots(dots) => if Countable(|dots|) then PrintWord(|dots|) + PrintDots(dots) else []
    case Colours(colours) => PrintWords(colours)
    case Material(id, pairs) =>
      if Countable(|pairs|) && PairsFine(pairs) then PrintWord(id) + (PrintWord(|pairs|) + PrintPairs(pairs)) else []
    case Unknown(_, body) => body
  }

  function Print(b: Block): Bytes
    requires WellFormed(b)
  {
    var body := Body(b.content);
    Tag(b.content) + (PrintWord(|body| + |b.extra|) + (PrintWord(b.childBytes) + (body + b.extra)))
  }

  predicate AllWellFormed(blocks: seq<Block>) {
    forall i :: 0 <= i < |blocks| ==> WellFormed(blocks[i])
  }

  function PrintBlocks(blocks: seq<Block>): Bytes
    requires AllWellFormed(blocks)
  {
    if blocks == [] then [] else Print(blocks[0]) + PrintBlocks(blocks[1..])
  }

  // The whole file; less than a chunk header may trail behind.
  function PrintFile(version: Word, selfBytes: Word, childBytes: Word, blocks: seq<Block>, tail: Bytes): Bytes
    requires AllWellFormed(blocks)
  {
    var chunks := PrintBlocks(blocks) + tail;
    MAGIC + (PrintWord(version) + (MAIN + (PrintWord(selfBytes) + (PrintWord(childBytes) + chunks))))
  }

  // ------------------------------------------------------------------------------------------
  // What a file means
  // ------------------------------------------------------------------------------------------

  function PutDots(p: Parsed, dots: seq<Dot>): Parsed
    decreases |dots|
  {
    if dots == [] then p else PutDots(PutVoxel(p, dots[0].x, dots[0].y, dots[0].z, dots[0].m), dots[1..])
  }

  // Colour i of the file is palette entry i + 1; the last colour is not used.
  function Recoloured(palette: Palette, colours: seq<Word>): Palette
    requires |colours| == 256
  {
    seq(PALETTE_SIZE, j requires 0 <= j < PALETTE_SIZE && |colours| == 256 =>
      if j == 0 then palette[0] else colours[j - 1])
  }

  function Meaning(p: Parsed, c: Content, emission: Emission): Parsed {
    match c
    case Size(x, y, z) => p.(sizeX := x, sizeY := y, sizeZ := z)
    case Dots(dots) => PutDots(p, dots)
    case Colours(colours) => if |colours| == 256 then p.(palette := Recoloured(p.palette, colours)) else p
    case Material(id, pairs) => PutMaterial(p, id, pairs, emission)
    case Unknown(_, _) => p
  }

  function MeaningOf(p: Parsed, blocks: seq<Block>, emission: Emission): Parsed
    decreases |blocks|
  {
    if blocks == [] then p else MeaningOf(Meaning(p, blocks[0].content, emission), blocks[1..], emission)
  }

  // ------------------------------------------------------------------------------------------
  // Reading back what was printed
  // ------------------------------------------------------------------------------------------

  // The bytes stand in the data at this position.
  ghost predicate Has(data: Bytes, pos: nat, bytes: Bytes) {
    pos + |bytes| <= |data| && data[pos..pos + |bytes|] == bytes
  }

  lemma HasBoth(data: Bytes, pos: nat, a: Bytes, b: Bytes)
    requires Has(data, pos, a + b)
    ensures Has(data, pos, a) && Has(data, pos + |a|, b)
  {
    var both := data[pos..pos + |a + b|];
    assert data[pos..pos + |a|] == both[..|a|] == a;
    assert data[pos + |a|..pos + |a| + |b|] == both[|a|..] == b;
  }

  lemma HasAt(data: Bytes, pos: nat, bytes: Bytes, i: nat)
    requires Has(data, pos, bytes) && i < |bytes|
    ensures pos + i < |data| && data[pos + i] == bytes[i]
  {
    assert data[pos..pos + |bytes|][i] == bytes[i];
  }

  lemma WordBack(w: Word)
    ensures w % 0x100 + 0x100 * (w / 0x100 % 0x100) + 0x1_0000 * (w / 0x1_0000 % 0x100) + 0x100_0000 * (w / 0x100_0000)
      == w
  {
    var q := w / 0x100;
    var p := q / 0x100;
    Halved(w);
    Halved(q);
    assert w / 0x100_0000 == p / 0x100;
  }

  lemma Halved(w: int)
    ensures w / 0x1_0000 == w / 0x100 / 0x100
  {
    var q := w / 0x100;
    assert 0x100 * q <= w < 0x100 * q + 0x100;
    assert 0x100 * (q / 0x100) <= q < 0x100 * (q / 0x100) + 0x100;
  }

  lemma ReadsWord(data: Bytes, pos: nat, w: Word)
    requires Has(data, pos, PrintWord(w))
    ensures pos + 4 <= |data| && U32At(data, pos) == w && ReadU32(data, pos) == Read(w, pos + 4)
  {
    HasAt(data, pos, PrintWord(w), 0);
    HasAt(data, pos, PrintWord(w), 1);
    HasAt(data, pos, PrintWord(w), 2);
    HasAt(data, pos, PrintWord(w), 3);
    WordBack(w);
  }

  lemma {:induction false} ReadsDots(data: Bytes, pos: nat, dots: seq<Dot>, p: Parsed)
    requires Has(data, pos, PrintDots(dots))
    ensures ReadVoxels(data, pos, |dots|, p) == Read(PutDots(p, dots), pos + |PrintDots(dots)|)
    decreases |dots|
  {
    if dots != [] {
      var d := [dots[0].x, dots[0].y, dots[0].z, dots[0].m];
      HasBoth(data, pos, d, PrintDots(dots[1..]));
      HasAt(data, pos, d, 0);
      HasAt(data, pos, d, 1);
      HasAt(data, pos, d, 2);
      HasAt(data, pos, d, 3);
      ReadsDots(data, pos + 4, dots[1..], PutVoxel(p, dots[0].x, dots[0].y, dots[0].z, dots[0].m));
    }
  }

  lemma {:induction false} ReadsColours(data: Bytes, pos: nat, colours: seq<Word>, i: nat, palette: Palette)
    requires |colours| == 256 && i <= 256 && Has(data, pos, PrintWords(colours[i..]))
    ensures ReadColours(data, pos, i, palette).pos == pos + |PrintWords(colours[i..])|
    ensures ReadColours(data, pos, i, palette).value
         == seq(PALETTE_SIZE, j requires 0 <= j < PALETTE_SIZE && |colours| == 256 =>
              if j <= i then palette[j] else colours[j - 1])
    decreases 256 - i
  {
    if i < 256 {
      var rest := colours[i..];
      assert rest[0] == colours[i] && rest[1..] == colours[i + 1..];
      HasBoth(data, pos, PrintWord(colours[i]), PrintWords(colours[i + 1..]));
      ReadsWord(data, pos, colours[i]);
      ReadsColours(data, pos + 4, colours, i + 1, PutColour(palette, i, colours[i]));
    }
  }

  lemma ReadsString(data: Bytes, pos: nat, s: Bytes)
    requires Countable(|s|) && Has(data, pos, PrintString(s))
    ensures ReadString(data, pos) == Read(s, pos + |PrintString(s)|)
  {
    HasBoth(data, pos, PrintWord(|s|), s);
    ReadsWord(data, pos, |s|);
  }

  // A string that something follows.
  lemma ReadsStringOf(data: Bytes, pos: nat, s: Bytes, rest: Bytes)
    requires Countable(|s|) && Has(data, pos, PrintString(s) + rest)
    ensures var k := |PrintString(s)|;
      k > 0 && ReadString(data, pos) == Read(s, pos + k) && Has(data, pos + k, rest)
  {
    HasBoth(data, pos, PrintString(s), rest);
    ReadsString(data, pos, s);
    hide ReadString, Has;
  }

  lemma ReadsPair(data: Bytes, pos: nat, p: Pair, rest: Bytes)
    requires Countable(|p.key|) && Countable(|p.value|)
    requires Has(data, pos, PrintString(p.key) + (PrintString(p.value) + rest))
    ensures var k, v := |PrintString(p.key)|, |PrintString(p.value)|;
      && k > 0 && Has(data, pos + k + v, rest)
      && ReadString(data, pos) == Read(p.key, pos + k) && ReadString(data, pos + k) == Read(p.value, pos + k + v)
  {
    ReadsStringOf(data, pos, p.key, PrintString(p.value) + rest);
    ReadsStringOf(data, pos + |PrintString(p.key)|, p.value, rest);
    hide *;
  }

  lemma DictStep(data: Bytes, pos: nat, n: nat, selfEnd: nat, before: seq<Pair>)
    requires Within(data, pos) && n > 0 && pos < selfEnd
    ensures var key := ReadString(data, pos);
      var value := ReadString(data, key.pos);
      ReadDict(data, pos, n, selfEnd, before)
      == ReadDict(data, value.pos, n - 1, selfEnd, before + [Pair(key.value, value.value)])
  {
    hide ReadString;
  }

  lemma DictEnd(data: Bytes, pos: nat, selfEnd: nat, before: seq<Pair>)
    requires Within(data, pos)
    ensures ReadDict(data, pos, 0, selfEnd, before) == Read(before, pos)
  {
  }

  lemma ReadsFirstPair(data: Bytes, pos: nat, pairs: seq<Pair>, selfEnd: nat, before: seq<Pair>) returns (next: nat)
    requires pairs != [] && PairsFine(pairs) && Has(data, pos, PrintPairs(pairs))
    requires pos + |PrintPairs(pairs)| <= selfEnd
    ensures next + |PrintPairs(pairs[1..])| == pos + |PrintPairs(pairs)| && Has(data, next, PrintPairs(pairs[1..]))
    ensures next <= |data|
    ensures ReadDict(data, pos, |pairs|, selfEnd, before)
      == ReadDict(data, next, |pairs| - 1, selfEnd, before + [pairs[0]])
  {
    hide PrintString, ReadString, Has, ReadDict;
    var first, rest := pairs[0], PrintPairs(pairs[1..]);
    HasFits(data, pos, PrintPairs(pairs));
    ReadsPair(data, pos, first, rest);
    next := pos + |PrintString(first.key)| + |PrintString(first.value)|;
    DictStep(data, pos, |pairs|, selfEnd, before);
    HasFits(data, next, rest);
  }

  lemma {:induction false} ReadsPairs(data: Bytes, pos: nat, pairs: seq<Pair>, selfEnd: nat, before: seq<Pair>)
    requires PairsFine(pairs) && Has(data, pos, PrintPairs(pairs)) && pos + |PrintPairs(pairs)| <= selfEnd
    ensures ReadDict(data, pos, |pairs|, selfEnd, before) == Read(before + pairs, pos + |PrintPairs(pairs)|)
    decreases |pairs|
  {
    hide Has, ReadDict;
    HasFits(data, pos, PrintPairs(pairs));
    if pairs == [] {
      assert before + pairs == before;
      DictEnd(data, pos, selfEnd, before);
    } else {
      var next := ReadsFirstPair(data, pos, pairs, selfEnd, before);
      var more, others := before + [pairs[0]], pairs[1..];
      ReadsPairs(data, next, others, selfEnd, more);
      assert more + others == before + pairs;
    }
  }

  lemma HasFits(data: Bytes, pos: nat, bytes: Bytes)
    requires Has(data, pos, bytes)
    ensures pos + |bytes| <= |data|
  {
  }

  lemma ReadsTwoWords(data: Bytes, pos: nat, v: Word, w: Word, rest: Bytes)
    requires Has(data, pos, PrintWord(v) + (PrintWord(w) + rest))
    ensures ReadU32(data, pos) == Read(v, pos + 4) && ReadU32(data, pos + 4) == Read(w, pos + 8)
    ensures Has(data, pos + 8, rest)
  {
    HasBoth(data, pos, PrintWord(v), PrintWord(w) + rest);
    HasBoth(data, pos + 4, PrintWord(w), rest);
    ReadsWord(data, pos, v);
    ReadsWord(data, pos + 4, w);
  }

  // A chunk's body is read as what it means, and no further than it reaches.
  lemma ReadsBody(data: Bytes, pos: nat, b: Block, selfEnd: nat, emission: Emission, p: Parsed)
    requires WellFormed(b) && Has(data, pos, Body(b.content)) && selfEnd == pos + |Body(b.content)| + |b.extra|
    requires Within(data, pos)
    ensures var r := ReadChunk(data, pos, Tag(b.content), selfEnd, emission, p);
      r.value == Meaning(p, b.content, emission) && r.pos <= selfEnd
  {
    hide ReadU32, PrintWord, ReadVoxels, ReadColours, ReadDict, PutDots, PutMaterial, PrintPairs, PrintDots, PrintWords,
         Has;
    match b.content
    case Size(x, y, z) =>
      ReadsTwoWords(data, pos, x, y, PrintWord(z));
      ReadsWord(data, pos + 8, z);
      assert |PrintWord(x)| == |PrintWord(y)| == |PrintWord(z)| == 4 by { WordSize(x); WordSize(y); WordSize(z); }
    case Dots(dots) =>
      HasBoth(data, pos, PrintWord(|dots|), PrintDots(dots));
      ReadsWord(data, pos, |dots|);
      WordSize(|dots|);
      ReadsDots(data, pos + 4, dots, p);
    case Colours(colours) =>
      assert colours[0..] == colours;
      ReadsColours(data, pos, colours, 0, p.palette);
    case Material(id, pairs) =>
      ReadsTwoWords(data, pos, id, |pairs|, PrintPairs(pairs));
      WordSize(id);
      WordSize(|pairs|);
      ReadsPairs(data, pos + 8, pairs, selfEnd, []);
      assert [] + pairs == pairs;
    case Unknown(tag, _) =>
  }

  lemma WordSize(w: Word)
    ensures |PrintWord(w)| == 4
  {
  }

  // The header of a printed chunk is read back.
  lemma ReadsHeader(data: Bytes, pos: nat, tag: Bytes, n: Word, childBytes: Word, body: Bytes, extra: Bytes)
    requires |tag| == 4 && Has(data, pos, tag + (PrintWord(n) + (PrintWord(childBytes) + (body + extra))))
    ensures pos + 12 <= |data| && data[pos..pos + 4] == tag && U32At(data, pos + 4) == n && Has(data, pos + 12, body)
  {
    HasBoth(data, pos, tag, PrintWord(n) + (PrintWord(childBytes) + (body + extra)));
    HasBoth(data, pos + 4, PrintWord(n), PrintWord(childBytes) + (body + extra));
    HasBoth(data, pos + 8, PrintWord(childBytes), body + extra);
    HasBoth(data, pos + 12, body, extra);
    ReadsWord(data, pos + 4, n);
    hide PrintWord, U32At;
    WordSize(n);
    WordSize(childBytes);
  }

  lemma PrintSize(b: Block) returns (n: Word)
    requires WellFormed(b)
    ensures n == |Body(b.content)| + |b.extra| && |Print(b)| == 12 + n
  {
    hide Body;
    n := |Body(b.content)| + |b.extra|;
  }

  lemma ReadsBlockHeader(data: Bytes, pos: nat, b: Block, n: Word)
    requires WellFormed(b) && Has(data, pos, Print(b)) && n == |Body(b.content)| + |b.extra|
    ensures pos + 12 <= |data| && data[pos..pos + 4] == Tag(b.content) && U32At(data, pos + 4) == n
    ensures Has(data, pos + 12, Body(b.content)) && Within(data, pos + 12)
  {
    hide Has, U32At, PrintWord, Body;
    ReadsHeader(data, pos, Tag(b.content), n, b.childBytes, Body(b.content), b.extra);
  }

  lemma WalkStep(data: Bytes, pos: nat, emission: Emission, p: Parsed)
    requires pos + 12 <= |data|
    ensures var selfEnd := pos + 12 + U32At(data, pos + 4);
      var r := ReadChunk(data, pos + 12, data[pos..pos + 4], selfEnd, emission, p);
      r.pos <= selfEnd ==> Walk(data, pos, emission, p) == Walk(data, selfEnd, emission, r.value)
  {
    hide ReadChunk, U32At;
  }

  lemma WalksBlock(data: Bytes, pos: nat, b: Block, emission: Emission, p: Parsed)
    requires WellFormed(b) && Has(data, pos, Print(b))
    ensures Walk(data, pos, emission, p) == Walk(data, pos + |Print(b)|, emission, Meaning(p, b.content, emission))
  {
    hide *;
    var n := PrintSize(b);
    ReadsBlockHeader(data, pos, b, n);
    WalkStep(data, pos, emission, p);
    ReadsBody(data, pos + 12, b, pos + 12 + n, emission, p);
  }

  lemma {:induction false} WalksBlocks(data: Bytes, pos: nat, blocks: seq<Block>, tail: Bytes, emission: Emission,
                                       p: Parsed)
    requires AllWellFormed(blocks) && Has(data, pos, PrintBlocks(blocks) + tail)
    requires pos + |PrintBlocks(blocks) + tail| == |data| && |tail| < 12
    ensures Walk(data, pos, emission, p) == MeaningOf(p, blocks, emission)
    decreases |blocks|
  {
    hide Print, WellFormed, Meaning, ReadChunk;
    if blocks != [] {
      var first, rest := Print(blocks[0]), PrintBlocks(blocks[1..]);
      assert PrintBlocks(blocks) + tail == first + (rest + tail);
      HasBoth(data, pos, first, rest + tail);
      WalksBlock(data, pos, blocks[0], emission, p);
      WalksBlocks(data, pos + |first|, blocks[1..], tail, emission, Meaning(p, blocks[0].content, emission));
    }
  }

  // The parser undoes the printer: for every list of well-formed chunks, in any order, with any
  // unknown chunks among them, it yields exactly what the list means.
  lemma ParseInvertsPrint(version: Word, selfBytes: Word, childBytes: Word, blocks: seq<Block>, tail: Bytes,
                          emission: Emission, voxels: Voxels)
    requires AllWellFormed(blocks) && |tail| < 12
    ensures Parse(PrintFile(version, selfBytes, childBytes, blocks, tail), emission, voxels)
      == Some(MeaningOf(Blank(voxels), blocks, emission))
  {
    var chunks := PrintBlocks(blocks) + tail;
    var data := PrintFile(version, selfBytes, childBytes, blocks, tail);
    FileHeader(data, version, selfBytes, childBytes, chunks);
    hide Print, PrintWord, ReadU32, Walk, MeaningOf, Blank, PrintFile, Has;
    WalksBlocks(data, 20, blocks, tail, emission, Blank(voxels));
  }

  lemma FileHeader(data: Bytes, version: Word, selfBytes: Word, childBytes: Word, chunks: Bytes)
    requires data == MAGIC + (PrintWord(version) + (MAIN + (PrintWord(selfBytes) + (PrintWord(childBytes) + chunks))))
    ensures |data| == 20 + |chunks| && data[..4] == MAGIC && data[8..12] == MAIN && Has(data, 20, chunks)
    ensures ReadU32(data, 12) == Read(selfBytes, 16) && ReadU32(data, 16) == Read(childBytes, 20)
  {
    var sizes := PrintWord(selfBytes) + (PrintWord(childBytes) + chunks);
    assert data[0..|data|] == data;
    hide PrintWord, ReadU32;
    WordSize(version);
    WordSize(selfBytes);
    WordSize(childBytes);
    HasBoth(data, 0, MAGIC, PrintWord(version) + (MAIN + sizes));
    HasBoth(data, 4, PrintWord(version), MAIN + sizes);
    HasBoth(data, 8, MAIN, sizes);
    ReadsTwoWords(data, 12, selfBytes, childBytes, chunks);
  }

  // ------------------------------------------------------------------------------------------
  // What the meaning of a list comes down to
  // ------------------------------------------------------------------------------------------

  // The tags, letter by letter.
  lemma TagsSpelled()
    ensures MAGIC == ['V' as int, 'O' as int, 'X' as int, ' ' as int]
    ensures MAIN == ['M' as int, 'A' as int, 'I' as int, 'N' as int]
    ensures SIZE == ['S' as int, 'I' as int, 'Z' as int, 'E' as int]
    ensures XYZI == ['X' as int, 'Y' as int, 'Z' as int, 'I' as int]
    ensures RGBA == ['R' as int, 'G' as int, 'B' as int, 'A' as int]
    ensures MATL == ['M' as int, 'A' as int, 'T' as int, 'L' as int]
  {
  }

  predicate Known(b: Block) { !b.content.Unknown? }

  function OnlyKnown(blocks: seq<Block>): seq<Block> {
    if blocks == [] then [] else (if Known(blocks[0]) then [blocks[0]] else []) + OnlyKnown(blocks[1..])
  }

  // Unknown chunks have no effect, wherever they stand.
  lemma {:induction false} UnknownChunksIgnored(p: Parsed, blocks: seq<Block>, emission: Emission)
    ensures MeaningOf(p, OnlyKnown(blocks), emission) == MeaningOf(p, blocks, emission)
    decreases |blocks|
  {
    if blocks != [] {
      var next := Meaning(p, blocks[0].content, emission);
      UnknownChunksIgnored(next, blocks[1..], emission);
      var rest := OnlyKnown(blocks[1..]);
      assert Known(blocks[0]) ==> ([blocks[0]] + rest)[0] == blocks[0] && ([blocks[0]] + rest)[1..] == rest;
      assert [] + rest == rest;
      hide Meaning;
    }
  }

  lemma {:induction false} DotsKeepRest(p: Parsed, dots: seq<Dot>)
    ensures var q := PutDots(p, dots); q == p.(voxels := q.voxels, count := p.count + |dots|)
    decreases |dots|
  {
    if dots != [] {
      DotsKeepRest(PutVoxel(p, dots[0].x, dots[0].y, dots[0].z, dots[0].m), dots[1..]);
    }
  }

  // The last SIZE chunk wins.
  lemma {:induction false} LastSizeWins(p: Parsed, blocks: seq<Block>, k: nat, emission: Emission)
    requires k < |blocks| && blocks[k].content.Size? && forall i :: k < i < |blocks| ==> !blocks[i].content.Size?
    ensures var q := MeaningOf(p, blocks, emission); var s := blocks[k].content;
      q.sizeX == s.x && q.sizeY == s.y && q.sizeZ == s.z
    decreases k
  {
    var next := Meaning(p, blocks[0].content, emission);
    if k > 0 {
      LastSizeWins(next, blocks[1..], k - 1, emission);
    } else {
      NoSizeNoChange(next, blocks[1..], emission);
    }
  }

  lemma {:induction false} NoSizeNoChange(p: Parsed, blocks: seq<Block>, emission: Emission)
    requires forall i :: 0 <= i < |blocks| ==> !blocks[i].content.Size?
    ensures var q := MeaningOf(p, blocks, emission); q.sizeX == p.sizeX && q.sizeY == p.sizeY && q.sizeZ == p.sizeZ
    decreases |blocks|
  {
    if blocks != [] {
      NoSizeNoChange(Meaning(p, blocks[0].content, emission), blocks[1..], emission);
      if blocks[0].content.Dots? {
        DotsKeepRest(p, blocks[0].content.dots);
      }
    }
  }

  // The dots of all the chunks, in file order.
  function AllDots(blocks: seq<Block>): seq<Dot> {
    if blocks == [] then [] else (if blocks[0].content.Dots? then blocks[0].content.dots else []) + AllDots(blocks[1..])
  }

  lemma {:induction false} PutDotsAppend(p: Parsed, a: seq<Dot>, b: seq<Dot>)
    ensures PutDots(p, a + b) == PutDots(PutDots(p, a), b)
    decreases |a|
  {
    if a == [] {
      assert a + b == b;
    } else {
      assert (a + b)[1..] == a[1..] + b;
      PutDotsAppend(PutVoxel(p, a[0].x, a[0].y, a[0].z, a[0].m), a[1..], b);
    }
  }

  // Only the voxels so far matter for the voxels that come out.
  lemma {:induction false} DotsOnVoxels(p: Parsed, q: Parsed, dots: seq<Dot>)
    requires p.voxels == q.voxels
    ensures PutDots(p, dots).voxels == PutDots(q, dots).voxels
    decreases |dots|
  {
    if dots != [] {
      var d := dots[0];
      DotsOnVoxels(PutVoxel(p, d.x, d.y, d.z, d.m), PutVoxel(q, d.x, d.y, d.z, d.m), dots[1..]);
    }
  }

  // The voxels of a file are its dots put one after the other, whatever stands between them.
  lemma {:induction false} VoxelsAreDots(p: Parsed, blocks: seq<Block>, emission: Emission)
    ensures MeaningOf(p, blocks, emission).voxels == PutDots(p, AllDots(blocks)).voxels
    decreases |blocks|
  {
    if blocks != [] {
      var next := Meaning(p, blocks[0].content, emission);
      VoxelsAreDots(next, blocks[1..], emission);
      if blocks[0].content.Dots? {
        PutDotsAppend(p, blocks[0].content.dots, AllDots(blocks[1..]));
      } else {
        DotsOnVoxels(next, p, AllDots(blocks[1..]));
        assert AllDots(blocks) == AllDots(blocks[1..]);
      }
    }
  }

  // Where a dot ends up: y and z are swapped.
  function PlaceOf(d: Dot): Cell {
    Cell(d.x, d.z, d.y)
  }

  // No later dot ends up in the place of the k-th.
  predicate LastAt(dots: seq<Dot>, k: nat, c: Cell)
    requires k < |dots|
  {
    PlaceOf(dots[k]) == c && forall i :: k < i < |dots| ==> PlaceOf(dots[i]) != c
  }

  // Over the whole file the last dot at a place wins and is never air; where there is none the
  // voxels are what they were.
  lemma LastDotWins(p: Parsed, blocks: seq<Block>, emission: Emission, c: Cell)
    ensures var dots, v := AllDots(blocks), At(MeaningOf(p, blocks, emission).voxels, c);
      && (forall k :: 0 <= k < |dots| && LastAt(dots, k, c) ==> v == if dots[k].m == 0 then 1 else dots[k].m)
      && ((forall k :: 0 <= k < |dots| ==> PlaceOf(dots[k]) != c) ==> v == At(p.voxels, c))
  {
    var dots := AllDots(blocks);
    VoxelsAreDots(p, blocks, emission);
    hide MeaningOf, PutDots, AllDots;
    forall k | 0 <= k < |dots| && LastAt(dots, k, c)
      ensures At(PutDots(p, dots).voxels, c) == if dots[k].m == 0 then 1 else dots[k].m
    {
      LastOfDots(p, dots, k);
    }
    if forall k :: 0 <= k < |dots| ==> PlaceOf(dots[k]) != c {
      OtherDotsKeep(p, dots, c);
    }
  }

  lemma {:induction false} LastOfDots(p: Parsed, dots: seq<Dot>, k: nat)
    requires k < |dots| && forall i :: k < i < |dots| ==> PlaceOf(dots[i]) != PlaceOf(dots[k])
    ensures At(PutDots(p, dots).voxels, PlaceOf(dots[k])) == if dots[k].m == 0 then 1 else dots[k].m
    decreases k
  {
    var next := PutVoxel(p, dots[0].x, dots[0].y, dots[0].z, dots[0].m);
    if k > 0 {
      LastOfDots(next, dots[1..], k - 1);
    } else {
      OtherDotsKeep(next, dots[1..], PlaceOf(dots[0]));
    }
  }

  lemma {:induction false} OtherDotsKeep(p: Parsed, dots: seq<Dot>, c: Cell)
    requires forall i :: 0 <= i < |dots| ==> PlaceOf(dots[i]) != c
    ensures At(PutDots(p, dots).voxels, c) == At(p.voxels, c)
    decreases |dots|
  {
    if dots != [] {
      OtherDotsKeep(PutVoxel(p, dots[0].x, dots[0].y, dots[0].z, dots[0].m), dots[1..], c);
    }
  }

  // ------------------------------------------------------------------------------------------
  // The colours a file ends up with
  // ------------------------------------------------------------------------------------------

  // The k-th chunk is the last one that holds colours.
  predicate LastColours(blocks: seq<Block>, k: int) {
    0 <= k < |blocks| && blocks[k].content.Colours? && NoColours(blocks[k + 1..])
  }

  predicate NoColours(blocks: seq<Block>) {
    forall i :: 0 <= i < |blocks| ==> !blocks[i].content.Colours?
  }

  // A material chunk that says something about the emission of entry j.
  predicate Emits(b: Block, j: nat, emission: Emission) {
    b.content.Material? && b.content.id == j && emission(b.content.pairs).Some?
  }

  predicate LastEmission(blocks: seq<Block>, k: int, j: nat, emission: Emission) {
    0 <= k < |blocks| && Emits(blocks[k], j, emission) && NoEmission(blocks[k + 1..], j, emission)
  }

  predicate NoEmission(blocks: seq<Block>, j: nat, emission: Emission) {
    forall i :: 0 <= i < |blocks| ==> !Emits(blocks[i], j, emission)
  }

  lemma {:induction false} LastColoursWin(p: Parsed, blocks: seq<Block>, emission: Emission, j: nat)
    requires AllWellFormed(blocks) && j < PALETTE_SIZE
    ensures var q := MeaningOf(p, blocks, emission);
      && (forall k :: LastColours(blocks, k) && j > 0 ==> q.palette[j] == blocks[k].content.colours[j - 1])
      && (NoColours(blocks) || j == 0 ==> q.palette[j] == p.palette[j])
    decreases |blocks|
  {
    if blocks != [] {
      var c, rest := blocks[0].content, blocks[1..];
      LastColoursWin(Meaning(p, c, emission), rest, emission, j);
      if c.Dots? {
        DotsKeepRest(p, c.dots);
      }
      forall k | LastColours(blocks, k) && k > 0
        ensures LastColours(rest, k - 1)
      {
        assert rest[k..] == blocks[k + 1..];
      }
      hide MeaningOf;
      assert WellFormed(blocks[0]);
    }
  }

  lemma {:induction false} LastEmissionWins(p: Parsed, blocks: seq<Block>, emission: Emission, j: nat)
    requires j < |p.alpha| == PALETTE_SIZE
    ensures var q := MeaningOf(p, blocks, emission);
      && |q.alpha| == PALETTE_SIZE
      && (forall k :: LastEmission(blocks, k, j, emission) ==>
            q.alpha[j] == emission(blocks[k].content.pairs).value)
      && (NoEmission(blocks, j, emission) ==> q.alpha[j] == p.alpha[j])
    decreases |blocks|
  {
    if blocks != [] {
      var c, rest := blocks[0].content, blocks[1..];
      if c.Dots? {
        DotsKeepRest(p, c.dots);
      }
      LastEmissionWins(Meaning(p, c, emission), rest, emission, j);
      forall k | LastEmission(blocks, k, j, emission) && k > 0
        ensures LastEmission(rest, k - 1, j, emission)
      {
        assert rest[k..] == blocks[k + 1..];
      }
      hide MeaningOf;
    }
  }

  lemma AlphaOverShows(rgb: Word, a: Byte)
    ensures HasChannels(AlphaOver(rgb, a), Red(rgb), Green(rgb), Blue(rgb), a)
  {
    var r, g, b := Red(rgb), Green(rgb), Blue(rgb);
    WordBack(rgb);
    assert rgb % 0x100_0000 == r + 0x100 * g + 0x1_0000 * b;
    hide Red, Green, Blue;
    var w := WordOfBytes(r, g, b, a);
  }

  lemma GreyRamp(j: nat)
    requires j < PALETTE_SIZE
    ensures var grey := DefaultPalette()[j]; Red(grey) == j && Green(grey) == j && Blue(grey) == j
    ensures |NoAlpha()| == PALETTE_SIZE && NoAlpha()[j] == 0
  {
    var w := WordOfBytes(j, j, j, 0xFF);
  }

  // Every entry j of a file's palette: the colour the last RGBA chunk gives it, or grey j when there
  // is no such chunk, with what the last material of that number emits, or nothing.
  lemma ColoursOfFile(voxels: Voxels, blocks: seq<Block>, emission: Emission, j: nat)
    requires AllWellFormed(blocks) && j < PALETTE_SIZE
    ensures var q := MeaningOf(Blank(voxels), blocks, emission);
      && |q.alpha| == PALETTE_SIZE
      && var shown := WithAlpha(q.palette, q.alpha)[j];
      var a: int := q.alpha[j];
      && (NoColours(blocks) || j == 0 ==> HasChannels(shown, j, j, j, a))
      && (forall k :: LastColours(blocks, k) && j > 0 ==>
            var c := blocks[k].content.colours[j - 1]; HasChannels(shown, Red(c), Green(c), Blue(c), a))
      && (NoEmission(blocks, j, emission) ==> a == 0)
      && (forall k :: LastEmission(blocks, k, j, emission) ==> emission(blocks[k].content.pairs) == Some(a))
  {
    var p := Blank(voxels);
    GreyRamp(j);
    LastColoursWin(p, blocks, emission, j);
    LastEmissionWins(p, blocks, emission, j);
    var q := MeaningOf(p, blocks, emission);
    AlphaOverShows(q.palette[j], q.alpha[j]);
    hide MeaningOf, HasChannels, LastColours, NoColours, Emits, LastEmission, NoEmission, AlphaOver, DefaultPalette;
  }
}
