// The console server's base64 decoder, whose 32-bit accumulator is never masked.
module Base64 {
  import opened Grid

  type Bytes = seq<Byte>
  type Sextet = v: int | 0 <= v < 64

  datatype Class = Value(v: Sextet) | Space | Pad | Invalid

  // The decoding table.
  function Classify(c: Byte): Class {
    if 9 <= c <= 13 || c == 32 then Space
    else if c == 43 then Value(62)
    else if c == 47 then Value(63)
    else if 48 <= c <= 57 then Value(c - 48 + 52)
    else if c == 61 then Pad
    else if 65 <= c <= 90 then Value(c - 65)
    else if 97 <= c <= 122 then Value(c - 97 + 26)
    else Invalid
  }

  // What the text says: its sextets up to the first padding, or nothing if it holds an invalid character before that.
  function Sextets(text: Bytes): Option<seq<Sextet>> {
    if text == [] then Some([])
    else match Classify(text[0])
      case Space => Sextets(text[1..])
      case Pad => Some([])
      case Invalid => None
      case Value(v) => var rest := Sextets(text[1..]); if rest.None? then None else Some([v] + rest.value)
  }

  // Whole bytes of a string of sextets; bits left over are dropped.
  function Pack(vs: seq<Sextet>): Bytes {
    if |vs| < 2 then []
    else if |vs| == 2 then [First(vs[0], vs[1])]
    else if |vs| == 3 then [First(vs[0], vs[1]), Second(vs[1], vs[2])]
    else [First(vs[0], vs[1]), Second(vs[1], vs[2]), Third(vs[2], vs[3])] + Pack(vs[4..])
  }

  function First(a: int, b: int): Byte
    requires 0 <= a < 64 && 0 <= b < 64
  {
    a * 4 + b / 16
  }

  function Second(b: int, c: int): Byte
    requires 0 <= b < 64 && 0 <= c < 64
  {
    b % 16 * 16 + c / 4
  }

  function Third(c: int, d: int): Byte
    requires 0 <= c < 64 && 0 <= d < 64
  {
    c % 4 * 64 + d
  }

  // ------------------------------------------------------------------------------------------
  // The decoder
  // ------------------------------------------------------------------------------------------

  function Pow2(n: nat): (p: nat)
    ensures p > 0
  {
    if n == 0 then 1 else 2 * Pow2(n - 1)
  }

  // (acc << 6) | v in 32 bits.
  function ShiftIn(acc: Word, v: Sextet): Word {
    var shifted: int := acc;
    shifted * 64 % 0x1_0000_0000 + v
  }

  // Place of the next sextet in its group of four.
  function Phase(n: nat): nat {
    n % 4
  }

  lemma PhaseNext(n: nat)
    ensures Phase(n) < 4 && Phase(n + 1) == if Phase(n) == 3 then 0 else Phase(n) + 1
    ensures Phase(n) != 0 ==> n > 0
  {
  }

  function Bits(n: nat): nat {
    if Phase(n) == 0 then 0 else if Phase(n) == 1 then 6 else if Phase(n) == 2 then 4 else 2
  }

  // The accumulator's low bits are the bits not given out yet; what lies above them is stale.
  ghost predicate Pending(vs: seq<Sextet>, acc: Word) {
    vs != [] ==>
      var last: int := vs[|vs| - 1];
      && (Phase(|vs|) == 1 ==> acc % 64 == last)
      && (Phase(|vs|) == 2 ==> acc % 16 == last % 16)
      && (Phase(|vs|) == 3 ==> acc % 4 == last % 4)
  }

  // The byte completed by one more sextet.
  function Completed(vs: seq<Sextet>, v: Sextet): Bytes {
    if Phase(|vs|) == 0 then []
    else if Phase(|vs|) == 1 then [First(vs[|vs| - 1], v)]
    else if Phase(|vs|) == 2 then [Second(vs[|vs| - 1], v)]
    else [Third(vs[|vs| - 1], v)]
  }

  lemma {:induction false} PackAppend(vs: seq<Sextet>, v: Sextet)
    ensures Pack(vs + [v]) == Pack(vs) + Completed(vs, v)
  {
    hide First, Second, Third;
    if |vs| >= 4 {
      assert Phase(|vs|) == Phase(|vs[4..]|);
      PackAppend(vs[4..], v);
      PackFour(vs);
      PackFour(vs + [v]);
      assert (vs + [v])[4..] == vs[4..] + [v];
    } else if |vs| == 3 {
      PackFour(vs + [v]);
      assert (vs + [v])[4..] == [];
    }
  }

  lemma PackFour(vs: seq<Sextet>)
    requires |vs| >= 4
    ensures Pack(vs) == [First(vs[0], vs[1]), Second(vs[1], vs[2]), Third(vs[2], vs[3])] + Pack(vs[4..])
  {
    hide First, Second, Third;
  }

  lemma Div64(q: int, x: int)
    requires 0 <= x < 64
    ensures (64 * q + x) / 64 == q && (64 * q + x) % 64 == x
  {
  }

  lemma Div16(q: int, x: int)
    requires 0 <= x < 16
    ensures (16 * q + x) / 16 == q && (16 * q + x) % 16 == x
  {
  }

  lemma Div4(q: int, x: int)
    requires 0 <= x < 4
    ensures (4 * q + x) / 4 == q && (4 * q + x) % 4 == x
  {
  }

  lemma Mod256(q: int, x: int)
    requires 0 <= x < 0x100
    ensures (0x100 * q + x) % 0x100 == x
  {
  }

  lemma ShiftLow(acc: Word, v: Sextet)
    ensures ShiftIn(acc, v) % 64 == v && ShiftIn(acc, v) % 16 == v % 16 && ShiftIn(acc, v) % 4 == v % 4
  {
    var r := ShiftedLow(acc, v);
    hide ShiftIn;
    Div64(r, v);
    Div16(4 * r + v / 16, v % 16);
    Div4(16 * r + v / 4, v % 4);
  }

  lemma WrapLow(s: int)
    requires s >= 0
    ensures s * 64 % 0x1_0000_0000 == s % 0x400_0000 * 64
  {
    var q, r := s / 0x400_0000, s % 0x400_0000;
    assert s * 64 == q * 0x1_0000_0000 + r * 64;
  }

  // The byte given out is the right one although the accumulator has overflowed.
  lemma OutAfterSix(acc: Word, last: Sextet, v: Sextet)
    requires acc % 64 == last
    ensures ShiftIn(acc, v) / 16 % 0x100 == First(last, v)
  {
    var r := ShiftedLow(acc, v);
    ByteOfSix(r, v);
  }

  lemma OutAfterFour(acc: Word, last: Sextet, v: Sextet)
    requires acc % 16 == last % 16
    ensures ShiftIn(acc, v) / 4 % 0x100 == Second(last, v)
  {
    var r := ShiftedLow(acc, v);
    ByteOfFour(r, v);
  }

  lemma OutAfterTwo(acc: Word, last: Sextet, v: Sextet)
    requires acc % 4 == last % 4
    ensures ShiftIn(acc, v) % 0x100 == Third(last, v)
  {
    var r := ShiftedLow(acc, v);
    ByteOfTwo(r, v);
  }

  lemma ShiftedLow(acc: Word, v: Sextet) returns (r: nat)
    ensures ShiftIn(acc, v) == r * 64 + v && r % 64 == acc % 64 && r % 16 == acc % 16 && r % 4 == acc % 4
  {
    WrapLow(acc);
    Coarser(acc);
    r := acc % 0x400_0000;
  }

  lemma Coarser(s: int)
    requires s >= 0
    ensures s % 0x400_0000 % 64 == s % 64 && s % 0x400_0000 % 16 == s % 16 && s % 0x400_0000 % 4 == s % 4
  {
    var q, r := s / 0x400_0000, s % 0x400_0000;
    assert s == 0x400_0000 * q + r;
    Div64(0x10_0000 * q + r / 64, r % 64);
    Div16(0x40_0000 * q + r / 16, r % 16);
    Div4(0x100_0000 * q + r / 4, r % 4);
  }

  lemma ByteOfSix(r: nat, v: Sextet)
    ensures (r * 64 + v) / 16 % 0x100 == r % 64 * 4 + v / 16
  {
    var h := v / 16;
    Div16(r * 4 + h, v % 16);
    Mod256(r / 64, r % 64 * 4 + h);
  }

  lemma ByteOfFour(r: nat, v: Sextet)
    ensures (r * 64 + v) / 4 % 0x100 == r % 16 * 16 + v / 4
  {
    var h := v / 4;
    Div4(r * 16 + h, v % 4);
    Mod256(r / 16, r % 16 * 16 + h);
  }

  lemma ByteOfTwo(r: nat, v: Sextet)
    ensures (r * 64 + v) % 0x100 == r % 4 * 64 + v
  {
    Mod256(r / 4, r % 4 * 64 + v);
  }

  // What the decoding loop keeps: `vs` was read, and the rest of the text decides the result.
  ghost predicate Decoding(text: Bytes, i: nat, vs: seq<Sextet>, acc: Word, bits: int, out: Bytes) {
    && i <= |text| && bits == Bits(|vs|) && out == Pack(vs) && Pending(vs, acc)
    && var r := Sextets(text[i..]); Sextets(text) == if r.Some? then Some(vs + r.value) else None
  }

  lemma DecodingStarts(text: Bytes)
    ensures Decoding(text, 0, [], 0, 0, [])
  {
    assert text[0..] == text;
    assert Sextets(text).Some? ==> [] + Sextets(text).value == Sextets(text).value;
  }

  // What is given out when a sextet arrives, as the decoder computes it.
  function GivenOut(bits: nat, acc: Word): Bytes {
    if bits >= 8 then [acc / Pow2(bits - 8) % 0x100] else []
  }

  // One more sextet in the accumulator.
  lemma Accumulate(vs: seq<Sextet>, acc: Word, v: Sextet)
    requires Pending(vs, acc)
    ensures Pending(vs + [v], ShiftIn(acc, v))
    ensures var bits := Bits(|vs|) + 6;
      Bits(|vs + [v]|) == (if bits >= 8 then bits - 8 else bits) && Completed(vs, v) == GivenOut(bits, ShiftIn(acc, v))
  {
    ShiftLow(acc, v);
    PhaseNext(|vs|);
    assert Pow2(4) == 16 && Pow2(2) == 4 && Pow2(0) == 1;
    hide ShiftIn, First, Second, Third, Phase, Pow2;
    assert |vs + [v]| == |vs| + 1 && (vs + [v])[|vs|] == v;
    if Phase(|vs|) == 1 {
      OutAfterSix(acc, vs[|vs| - 1], v);
    } else if Phase(|vs|) == 2 {
      OutAfterFour(acc, vs[|vs| - 1], v);
    } else if Phase(|vs|) == 3 {
      OutAfterTwo(acc, vs[|vs| - 1], v);
    }
  }

  lemma DecodingStep(text: Bytes, i: nat, vs: seq<Sextet>, acc: Word, bits: int, out: Bytes)
    requires Decoding(text, i, vs, acc, bits, out) && i < |text| && Classify(text[i]).Value?
    ensures var v := Classify(text[i]).v; var acc', bits' := ShiftIn(acc, v), bits + 6;
      Decoding(text, i + 1, vs + [v], acc', if bits' >= 8 then bits' - 8 else bits', out + GivenOut(bits', acc'))
  {
    hide ShiftIn, Pack, Classify, Pow2, Completed, Pending, Bits, Sextets, Phase;
    var v := Classify(text[i]).v;
    PackAppend(vs, v);
    Accumulate(vs, acc, v);
    RestOf(text, i);
    var r := Sextets(text[i + 1..]);
    if r.Some? {
      assert vs + ([v] + r.value) == (vs + [v]) + r.value;
    }
    hide GivenOut;
  }

  lemma RestOf(text: Bytes, i: nat)
    requires i < |text|
    ensures var rest := Sextets(text[i + 1..]);
      Sextets(text[i..]) == match Classify(text[i])
        case Space => rest
        case Pad => Some([])
        case Invalid => None
        case Value(v) => if rest.None? then None else Some([v] + rest.value)
  {
    assert text[i..][1..] == text[i + 1..];
  }

  // Decodes what comes before the padding; `ok` is false when an invalid character is met.
  method Base64Decode(text: Bytes) returns (ok: bool, out: Bytes)
    ensures ok <==> Sextets(text).Some?
    ensures ok ==> out == Pack(Sextets(text).value)
  {
    hide Pack, ShiftIn, Pending, Classify, Bits, Pow2;
    ok, out := true, [];
    var acc: Word, bits := 0, 0;
    ghost var vs: seq<Sextet> := [];
    DecodingStarts(text);
    for i := 0 to |text|
      invariant Decoding(text, i, vs, acc, bits, out) && ok
    {
      RestOf(text, i);
      match Classify(text[i])
      case Space =>
      case Pad =>
        assert vs + [] == vs;
        return;
      case Invalid =>
        ok := false;
        return;
      case Value(v) =>
        DecodingStep(text, i, vs, acc, bits, out);
        assert out + [] == out;
        acc := ShiftIn(acc, v);
        bits := bits + 6;
        if bits >= 8 {
          bits := bits - 8;
          out := out + [acc / Pow2(bits) % 0x100];
        }
        vs := vs + [v];
    }
    assert text[|text|..] == [] && vs + [] == vs;
  }

  // ------------------------------------------------------------------------------------------
  // It undoes the padded encoding of section 4 of RFC 4648, with whitespace inserted anywhere
  // ------------------------------------------------------------------------------------------

  // Table 1 of RFC 4648.
  function Letter(v: Sextet): Byte {
    if v < 26 then 'A' as int + v
    else if v < 52 then 'a' as int + v - 26
    else if v < 62 then '0' as int + v - 52
    else if v == 62 then '+' as int
    else '/' as int
  }

  const PAD: Byte := '=' as int

  // A text is decoded if and only if nothing but letters and blanks comes before its end or its
  // first padding ...
  ghost predicate Readable(text: Bytes) {
    exists k :: 0 <= k <= |text| && (k < |text| ==> text[k] == PAD) && AllReadable(text, k)
  }

  ghost predicate AllReadable(text: Bytes, k: int) {
    forall i :: 0 <= i < |text| && i < k ==> IsLetter(text[i]) || IsBlank(text[i])
  }

  ghost predicate IsLetter(c: Byte) { exists v: Sextet :: c == Letter(v) }

  predicate IsBlank(c: Byte) { c in {'\t' as int, '\n' as int, 11, 12, '\r' as int, ' ' as int} }

  // ... because the table reads a letter as its place in the alphabet, blanks as blanks, the equals
  // sign as padding, and nothing else.
  lemma TableIsAlphabet(c: Byte)
    ensures forall v: Sextet :: c == Letter(v) <==> Classify(c) == Value(v)
    ensures Classify(c) == Space <==> IsBlank(c)
    ensures Classify(c) == Pad <==> c == PAD
    ensures Classify(c) == Invalid <==> !IsLetter(c) && !IsBlank(c) && c != PAD
  {
  }

  lemma {:induction false} DecodableIffReadable(text: Bytes)
    ensures Sextets(text).Some? <==> Readable(text)
  {
    if text == [] {
      assert AllReadable(text, 0);
    } else {
      TableIsAlphabet(text[0]);
      DecodableIffReadable(text[1..]);
      ReadableStep(text);
    }
  }

  lemma ReadableStep(text: Bytes)
    requires text != []
    ensures Readable(text) <==> text[0] == PAD || ((IsLetter(text[0]) || IsBlank(text[0])) && Readable(text[1..]))
  {
    hide IsLetter, IsBlank;
    if text[0] == PAD {
      assert AllReadable(text, 0);
    } else if Readable(text) {
      var k :| 0 <= k <= |text| && (k < |text| ==> text[k] == PAD) && AllReadable(text, k);
      assert AllReadable(text[1..], k - 1);
    }
    if Readable(text[1..]) && (IsLetter(text[0]) || IsBlank(text[0])) {
      var k :| 0 <= k <= |text[1..]| && (k < |text[1..]| ==> text[1..][k] == PAD) && AllReadable(text[1..], k);
      forall i | 0 <= i < |text| && i < k + 1
        ensures IsLetter(text[i]) || IsBlank(text[i])
      {
        assert i > 0 ==> text[i] == text[1..][i - 1];
      }
      assert AllReadable(text, k + 1);
    }
  }

  function Encode(bytes: Bytes): Bytes {
    if bytes == [] then []
    else
      var a: int := bytes[0];
      if |bytes| == 1 then [Letter(a / 4), Letter(a % 4 * 16), PAD, PAD]
      else
        var b: int := bytes[1];
        if |bytes| == 2 then [Letter(a / 4), Letter(a % 4 * 16 + b / 16), Letter(b % 16 * 4), PAD]
        else
          var c: int := bytes[2];
          [Letter(a / 4), Letter(a % 4 * 16 + b / 16), Letter(b % 16 * 4 + c / 64), Letter(c % 64)] + Encode(bytes[3..])
  }

  function WithoutSpace(text: Bytes): Bytes {
    if text == [] then [] else (if Classify(text[0]) == Space then [] else [text[0]]) + WithoutSpace(text[1..])
  }

  lemma {:induction false} SpaceIgnored(text: Bytes)
    ensures Sextets(WithoutSpace(text)) == Sextets(text)
  {
    if text != [] {
      SpaceIgnored(text[1..]);
      var rest := WithoutSpace(text[1..]);
      assert [] + rest == rest && ([text[0]] + rest)[1..] == rest;
    }
  }

  lemma ReadLetter(v: Sextet, rest: Bytes)
    ensures var r := Sextets(rest); Sextets([Letter(v)] + rest) == if r.Some? then Some([v] + r.value) else None
  {
    assert Classify(Letter(v)) == Value(v);
    assert ([Letter(v)] + rest)[1..] == rest;
  }

  lemma ReadTwo(vs: seq<Sextet>, rest: Bytes)
    requires |vs| == 2
    ensures var r := Sextets(rest);
      Sextets([Letter(vs[0]), Letter(vs[1])] + rest) == if r.Some? then Some(vs + r.value) else None
  {
    hide Letter, Sextets;
    ReadLetter(vs[1], rest);
    ReadLetter(vs[0], [Letter(vs[1])] + rest);
    assert [Letter(vs[0])] + ([Letter(vs[1])] + rest) == [Letter(vs[0]), Letter(vs[1])] + rest;
    var r := Sextets(rest);
    if r.Some? {
      assert [vs[0]] + ([vs[1]] + r.value) == vs + r.value;
    }
  }

  lemma ReadFour(vs: seq<Sextet>, rest: Bytes)
    requires |vs| == 4
    ensures var r := Sextets(rest);
      Sextets([Letter(vs[0]), Letter(vs[1]), Letter(vs[2]), Letter(vs[3])] + rest)
        == if r.Some? then Some(vs + r.value) else None
  {
    hide Letter, Sextets;
    ReadTwo(vs[2..], rest);
    var tail := [Letter(vs[2]), Letter(vs[3])] + rest;
    ReadTwo(vs[..2], tail);
    assert [Letter(vs[0]), Letter(vs[1])] + tail == [Letter(vs[0]), Letter(vs[1]), Letter(vs[2]), Letter(vs[3])] + rest;
    var r := Sextets(rest);
    if r.Some? {
      assert vs[..2] + (vs[2..] + r.value) == vs + r.value;
    }
  }

  lemma {:induction false} EncodedSextets(bytes: Bytes)
    ensures var r := Sextets(Encode(bytes)); r.Some? && Pack(r.value) == bytes
  {
    if |bytes| >= 3 {
      var a: int, b: int, c: int := bytes[0], bytes[1], bytes[2];
      EncodedSextets(bytes[3..]);
      EncodedTriple(a, b, c, bytes[3..]);
      assert bytes == [bytes[0], bytes[1], bytes[2]] + bytes[3..];
    } else if |bytes| == 2 {
      var a: int, b: int := bytes[0], bytes[1];
      EncodedPair(a, b);
      assert bytes == [bytes[0], bytes[1]];
    } else if |bytes| == 1 {
      var a: int := bytes[0];
      ReadTwo([a / 4, a % 4 * 16], [PAD, PAD]);
      assert [Letter(a / 4), Letter(a % 4 * 16)] + [PAD, PAD] == Encode(bytes);
    }
  }

  lemma EncodedTriple(a: Byte, b: Byte, c: Byte, more: Bytes)
    requires var r := Sextets(Encode(more)); r.Some? && Pack(r.value) == more
    ensures var r := Sextets(Encode([a, b, c] + more)); r.Some? && Pack(r.value) == [a, b, c] + more
  {
    var x: int, y: int, z: int := a, b, c;
    var u: Sextet, v: Sextet, w: Sextet, t: Sextet := x / 4, x % 4 * 16 + y / 16, y % 16 * 4 + z / 64, z % 64;
    FirstBack(x, y);
    SecondBack(x, y, z);
    ThirdBack(y, z);
    hide First, Second, Third;
    assert ([a, b, c] + more)[3..] == more;
    assert Encode([a, b, c] + more) == [Letter(u), Letter(v), Letter(w), Letter(t)] + Encode(more);
    hide Letter, Sextets, Encode;
    ReadFour([u, v, w, t], Encode(more));
    var rest := Sextets(Encode(more)).value;
    PackFour([u, v, w, t] + rest);
    assert ([u, v, w, t] + rest)[4..] == rest;
  }

  lemma FirstBack(x: int, y: int)
    requires 0 <= x < 0x100 && 0 <= y < 0x100
    ensures First(x / 4, x % 4 * 16 + y / 16) == x
  {
  }

  lemma SecondBack(x: int, y: int, z: int)
    requires 0 <= x < 0x100 && 0 <= y < 0x100 && 0 <= z < 0x100
    ensures Second(x % 4 * 16 + y / 16, y % 16 * 4 + z / 64) == y
  {
    assert (x % 4 * 16 + y / 16) % 16 == y / 16;
    assert (y % 16 * 4 + z / 64) / 4 == y % 16;
  }

  lemma ThirdBack(y: int, z: int)
    requires 0 <= y < 0x100 && 0 <= z < 0x100
    ensures Third(y % 16 * 4 + z / 64, z % 64) == z
  {
    assert (y % 16 * 4 + z / 64) % 4 == z / 64;
  }

  lemma EncodedPair(a: Byte, b: Byte)
    ensures var r := Sextets(Encode([a, b])); r.Some? && Pack(r.value) == [a, b]
  {
    var x: int, y: int := a, b;
    var u: Sextet, v: Sextet, w: Sextet := x / 4, x % 4 * 16 + y / 16, y % 16 * 4;
    FirstBack(x, y);
    SecondBack(x, y, 0);
    hide First, Second;
    assert Sextets([PAD]) == Some([]);
    ReadLetter(w, [PAD]);
    ReadTwo([u, v], [Letter(w)] + [PAD]);
    assert [Letter(u), Letter(v)] + ([Letter(w)] + [PAD]) == Encode([a, b]);
    assert [u, v] + [w] == [u, v, w];
  }

  // The decoder's answer to an encoding, however it is broken into lines.
  lemma DecodeInvertsEncode(bytes: Bytes, text: Bytes)
    requires WithoutSpace(text) == Encode(bytes)
    ensures Sextets(text).Some? && Pack(Sextets(text).value) == bytes
  {
    SpaceIgnored(text);
    EncodedSextets(bytes);
  }

  method DecodeEncoded(bytes: Bytes, text: Bytes) returns (ok: bool, out: Bytes)
    requires WithoutSpace(text) == Encode(bytes)
    ensures ok && out == bytes
  {
    DecodeInvertsEncode(bytes, text);
    ok, out := Base64Decode(text);
  }
}
