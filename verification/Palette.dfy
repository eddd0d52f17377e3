// The merged 256-entry palette: finding, adding and approximating colours.
module Palettes {
  import opened Grid

  const PALETTE_SIZE: nat := 256

  type Palette = p: seq<Word> | |p| == PALETTE_SIZE witness seq(PALETTE_SIZE, _ => 0)

  const EMPTY_PALETTE: Palette := seq(PALETTE_SIZE, _ => 0)

  function Red(c: Word): int { c % 0x100 }

  function Green(c: Word): int { c / 0x100 % 0x100 }

  function Blue(c: Word): int { c / 0x1_0000 % 0x100 }

  // A colour and its alpha byte, channel by channel.
  predicate HasChannels(shown: Word, red: int, green: int, blue: int, alpha: int) {
    Red(shown) == red && Green(shown) == green && Blue(shown) == blue && shown / 0x100_0000 == alpha
  }

  lemma WordOfBytes(r: int, g: int, b: int, a: int) returns (w: Word)
    requires 0 <= r < 0x100 && 0 <= g < 0x100 && 0 <= b < 0x100 && 0 <= a < 0x100
    ensures w == r + 0x100 * g + 0x1_0000 * b + 0x100_0000 * a && HasChannels(w, r, g, b, a)
  {
    w := r + 0x100 * g + 0x1_0000 * b + 0x100_0000 * a;
    assert w / 0x100 == g + 0x100 * b + 0x1_0000 * a;
    assert w / 0x1_0000 == b + 0x100 * a;
    assert w / 0x100_0000 == a;
  }

  // Squared distance in RGB; alpha does not take part.
  function ColourDist2(a: Word, b: Word): (d: int)
    ensures 0 <= d <= 3 * 255 * 255
  {
    var dr, dg, db := Red(a) - Red(b), Green(a) - Green(b), Blue(a) - Blue(b);
    SquareRange(dr);
    SquareRange(dg);
    SquareRange(db);
    dr * dr + dg * dg + db * db
  }

  lemma SquareRange(d: int)
    requires -255 <= d <= 255
    ensures 0 <= d * d <= 255 * 255
  {
    if d >= 0 { MulMonotone(d, 255, d); MulMonotone(d, 255, 255); }
    else { MulMonotone(-d, 255, -d); MulMonotone(-d, 255, 255); }
  }

  // Channel by channel, and whatever the alpha bytes are.
  lemma DistanceIsRgb(a: Word, b: Word, r: int, g: int, l: int, x: int, r': int, g': int, l': int, x': int)
    requires HasChannels(a, r, g, l, x) && HasChannels(b, r', g', l', x')
    ensures ColourDist2(a, b) == (r - r') * (r - r') + (g - g') * (g - g') + (l - l') * (l - l')
  {
  }

  // The colour sits in one of the allocated slots 1 .. used-1.
  ghost predicate Holds(p: Palette, used: nat, rgba: Word) {
    exists i :: 1 <= i < used <= PALETTE_SIZE && p[i] == rgba
  }

  ghost predicate First(p: Palette, used: nat, rgba: Word, idx: int) {
    1 <= idx < used <= PALETTE_SIZE && p[idx] == rgba && forall i :: 1 <= i < idx ==> p[i] != rgba
  }

  // The slot of least squared RGB distance, the first such one.
  ghost predicate Nearest(p: Palette, rgba: Word, idx: int) {
    && 1 <= idx < PALETTE_SIZE
    && (forall i :: 1 <= i < PALETTE_SIZE ==> ColourDist2(p[idx], rgba) <= ColourDist2(p[i], rgba))
    && (forall i :: 1 <= i < idx ==> ColourDist2(p[idx], rgba) < ColourDist2(p[i], rgba))
  }

  // How index idx stands for the colour: exactly, or, in a full palette that lacks it, as well as possible.
  ghost predicate StandsFor(p: Palette, used: nat, rgba: Word, idx: int) {
    if Holds(p, used, rgba) then First(p, used, rgba, idx)
    else used == PALETTE_SIZE && Nearest(p, rgba, idx)
  }

  // A palette grows by filling free slots only.
  ghost predicate Extends(p: Palette, used: nat, p': Palette, used': nat) {
    && 1 <= used <= used' <= PALETTE_SIZE
    && (forall i :: 0 <= i < used ==> p'[i] == p[i])
    && (used == used' ==> p == p')
  }

  lemma ExtendsTrans(p: Palette, used: nat, p': Palette, used': nat, p'': Palette, used'': nat)
    requires Extends(p, used, p', used') && Extends(p', used', p'', used'')
    ensures Extends(p, used, p'', used'')
  {
  }

  // The highest free entry of a palette, or the last one when none is free.
  ghost predicate Spare(p: Palette, idx: int) {
    && 1 <= idx < PALETTE_SIZE && (p[idx] == 0 || idx == PALETTE_SIZE - 1)
    && forall i :: 1 <= i < PALETTE_SIZE && (i > idx || p[idx] != 0) ==> p[i] != 0
  }

  method SpareEntry(p: Palette) returns (idx: Byte)
    ensures Spare(p, idx)
  {
    for i := PALETTE_SIZE downto 1
      invariant forall j :: i <= j < PALETTE_SIZE ==> p[j] != 0
    {
      if p[i] == 0 {
        return i;
      }
    }
    return PALETTE_SIZE - 1;
  }

  lemma StandsForStable(p: Palette, used: nat, p': Palette, used': nat, rgba: Word, idx: int)
    requires Extends(p, used, p', used') && StandsFor(p, used, rgba, idx)
    ensures StandsFor(p', used', rgba, idx)
  {
    if Holds(p, used, rgba) {
      assert p'[idx] == rgba;
    }
  }

  // The colour is shown exactly if and only if the palette holds it.
  lemma ExactWhenHeld(p: Palette, used: nat, rgba: Word, idx: int)
    requires StandsFor(p, used, rgba, idx)
    ensures 1 <= idx < PALETTE_SIZE
    ensures p[idx] == rgba <==> Holds(p, used, rgba)
  {
  }
}
