// What stamping a model into a world means: an additive translated overlay whose colours are
// merged into the world's palette.
module Stamping {
  import opened Grid
  import opened Terrain
  import opened Palettes

  // Placement along one axis: the whole extent [lo, hi) is moved into [0, 128) when it fits,
  // otherwise its low end is put at 0.
  function FitOffset(off: int, lo: int, hi: int): int {
    var minOff, maxOff := -lo, WORLD_DIM - hi;
    if minOff > maxOff then minOff
    else if off < minOff then minOff
    else if off > maxOff then maxOff else off
  }

  function Placement(b: Box, o: Cell): Cell {
    Cell(FitOffset(o.x, b.x0, b.x1), FitOffset(o.y, b.y0, b.y1), FitOffset(o.z, b.z0, b.z1))
  }

  // An extent [lo, hi) lies in the grid once it is moved by off.
  predicate Contained(lo: int, hi: int, off: int) {
    0 <= lo + off && hi + off <= WORLD_DIM
  }

  // The model is moved no further from where it was asked for than needed to get all of it into the
  // grid. An extent that is too large starts at 0.
  ghost predicate NearestFit(lo: int, hi: int, asked: int, off: int) {
    if hi - lo > WORLD_DIM then lo + off == 0
    else Contained(lo, hi, off) && forall other :: Contained(lo, hi, other) ==> Gap(off, asked) <= Gap(other, asked)
  }

  ghost predicate Bounded(m: Voxels, b: Box) {
    forall c <- m :: InBox(b, c)
  }

  ghost predicate NearestPlacement(b: Box, asked: Cell, o: Cell) {
    NearestFit(b.x0, b.x1, asked.x, o.x) && NearestFit(b.y0, b.y1, asked.y, o.y) && NearestFit(b.z0, b.z1, asked.z, o.z)
  }

  // Each axis has one nearest fit only, and it is the placement's.
  lemma PlacementIsNearest(b: Box, asked: Cell)
    ensures NearestPlacement(b, asked, Placement(b, asked))
    ensures forall o :: NearestPlacement(b, asked, o) ==> o == Placement(b, asked)
  {
    FitIsNearest(b.x0, b.x1, asked.x);
    FitIsNearest(b.y0, b.y1, asked.y);
    FitIsNearest(b.z0, b.z1, asked.z);
    hide FitOffset, NearestFit;
  }

  lemma FitIsNearest(lo: int, hi: int, asked: int)
    ensures NearestFit(lo, hi, asked, FitOffset(asked, lo, hi))
    ensures forall off :: NearestFit(lo, hi, asked, off) ==> off == FitOffset(asked, lo, hi)
  {
    var best := FitOffset(asked, lo, hi);
    forall off | NearestFit(lo, hi, asked, off)
      ensures off == best
    {
      if hi - lo <= WORLD_DIM {
        assert Contained(lo, hi, best) && Contained(lo, hi, off);
      }
    }
  }

  function Shift(c: Cell, o: Cell): Cell {
    Cell(o.x + c.x, o.y + c.y, o.z + c.z)
  }

  function Unshift(d: Cell, o: Cell): Cell {
    Cell(d.x - o.x, d.y - o.y, d.z - o.z)
  }

  predicate Fits(lo: int, hi: int, v: int) {
    hi - lo <= WORLD_DIM || v - lo < WORLD_DIM
  }

  // Exactly the cells past the far side of an axis on which the model is too large are clipped.
  lemma ClippedIffTooLarge(b: Box, o: Cell, c: Cell)
    requires InBox(b, c)
    ensures InGrid(Shift(c, Placement(b, o))) <==>
            Fits(b.x0, b.x1, c.x) && Fits(b.y0, b.y1, c.y) && Fits(b.z0, b.z1, c.z)
    // an offset that already keeps the model inside the grid is left alone
    ensures 0 <= b.x0 + o.x && b.x1 + o.x <= WORLD_DIM ==> Placement(b, o).x == o.x
    ensures 0 <= b.y0 + o.y && b.y1 + o.y <= WORLD_DIM ==> Placement(b, o).y == o.y
    ensures 0 <= b.z0 + o.z && b.z1 + o.z <= WORLD_DIM ==> Placement(b, o).z == o.z
  {
  }

  // The model a stamp reads: solid cells and the palette their materials refer to.
  datatype Model = Model(solid: Voxels, palette: Palette) {
    function Colour(c: Cell): Word
      requires c in solid
    {
      palette[solid[c]]
    }
  }

  // The part of a world a stamp changes.
  datatype Canvas = Canvas(voxels: Voxels, palette: Palette, used: nat)

  // Source cell c has been stamped when the loops are about to look at source cell `next`.
  ghost predicate Stamped(src: Model, o: Cell, next: Cell, c: Cell) {
    c in src.solid && InGrid(Shift(c, o)) && Precedes(c, next)
  }

  // The canvas is the old one overlaid with the cells stamped so far; every stamped cell has a
  // material that stands for its source colour, every other cell is untouched.
  ghost predicate Overlaid(was: Canvas, src: Model, o: Cell, next: Cell, now: Canvas) {
    && Extends(was.palette, was.used, now.palette, now.used)
    && forall d {:trigger At(now.voxels, d)} ::
         var c := Unshift(d, o);
         if Stamped(src, o, next, c) then StandsFor(now.palette, now.used, src.Colour(c), At(now.voxels, d))
         else At(now.voxels, d) == At(was.voxels, d)
  }

  // Colours the stamp brings that the palette did not hold.
  ghost function NewColours(was: Canvas, src: Model, o: Cell, next: Cell): set<Word> {
    set c | c in src.solid && Stamped(src, o, next, c) && !Holds(was.palette, was.used, src.Colour(c)) :: src.Colour(c)
  }

  // The slots filled since the stamp began hold pairwise distinct new colours.
  ghost predicate Filled(was: Canvas, src: Model, o: Cell, next: Cell, now: Canvas, added: set<Word>) {
    && was.used <= now.used <= PALETTE_SIZE
    && |added| == now.used - was.used
    && added <= NewColours(was, src, o, next)
    && (forall i :: was.used <= i < now.used ==> now.palette[i] in added)
    && (forall rgba <- added :: Holds(now.palette, now.used, rgba))
  }

  ghost predicate AllExact(src: Model, o: Cell, next: Cell, now: Canvas) {
    forall c <- src.solid :: Stamped(src, o, next, c) ==>
      var idx := At(now.voxels, Shift(c, o)); idx != 0 && now.palette[idx] == src.Colour(c)
  }

  lemma OverlayStep(was: Canvas, src: Model, o: Cell, c: Cell, now: Canvas, idx: Byte, now': Canvas)
    requires Overlaid(was, src, o, c, now)
    requires if c in src.solid && InGrid(Shift(c, o))
             then Extends(now.palette, now.used, now'.palette, now'.used)
               && StandsFor(now'.palette, now'.used, src.Colour(c), idx)
               && now'.voxels == Write(now.voxels, Shift(c, o), idx)
             else now' == now
    ensures Overlaid(was, src, o, c.(x := c.x + 1), now')
  {
    var next := c.(x := c.x + 1);
    forall d
      ensures var b := Unshift(d, o);
        if Stamped(src, o, next, b) then StandsFor(now'.palette, now'.used, src.Colour(b), At(now'.voxels, d))
        else At(now'.voxels, d) == At(was.voxels, d)
    {
      var b := Unshift(d, o);
      OverlaidAt(was, src, o, c, now, d);
      hide Overlaid, StandsFor, Extends;
      assert Shift(b, o) == d;
      assert Precedes(b, next) <==> Precedes(b, c) || b == c;
      if Stamped(src, o, c, b) && now' != now {
        StandsForStable(now.palette, now.used, now'.palette, now'.used, src.Colour(b), At(now.voxels, d));
      }
    }
  }

  lemma OverlaidAt(was: Canvas, src: Model, o: Cell, next: Cell, now: Canvas, d: Cell)
    requires Overlaid(was, src, o, next, now)
    ensures var c := Unshift(d, o);
      if Stamped(src, o, next, c) then StandsFor(now.palette, now.used, src.Colour(c), At(now.voxels, d))
      else At(now.voxels, d) == At(was.voxels, d)
  {
  }

  lemma StartStamp(was: Canvas, src: Model, o: Cell, b: Box)
    requires 1 <= was.used <= PALETTE_SIZE
    requires Bounded(src.solid, b)
    ensures Overlaid(was, src, o, Cell(b.x0, b.y0, b.z0), was) && Filled(was, src, o, Cell(b.x0, b.y0, b.z0), was, {})
  {
  }

  lemma OverlaidGrew(was: Canvas, src: Model, o: Cell, next: Cell, now: Canvas)
    requires Overlaid(was, src, o, next, now)
    ensures Extends(was.palette, was.used, now.palette, now.used)
  {
  }

  // Looking at a cell outside of the model's solid cells stamps nothing.
  lemma StampWrap(was: Canvas, src: Model, o: Cell, b: Box, now: Canvas, next: Cell, next': Cell, added: set<Word>)
    requires Bounded(src.solid, b)
    requires || (next.x >= b.x1 && next' == Cell(b.x0, next.y + 1, next.z))
             || (next.x == b.x0 && next.y >= b.y1 && next' == Cell(b.x0, b.y0, next.z + 1))
    requires Overlaid(was, src, o, next, now) && Filled(was, src, o, next, now, added)
    ensures Overlaid(was, src, o, next', now) && Filled(was, src, o, next', now, added)
  {
    forall c <- src.solid
      ensures Stamped(src, o, next, c) <==> Stamped(src, o, next', c)
    {
    }
    assert NewColours(was, src, o, next) == NewColours(was, src, o, next');
  }

  lemma FillStep(was: Canvas, src: Model, o: Cell, c: Cell, now: Canvas, now': Canvas, added: set<Word>)
    returns (added': set<Word>)
    requires c in src.solid && InGrid(Shift(c, o))
    requires Extends(was.palette, was.used, now.palette, now.used)
    requires Extends(now.palette, now.used, now'.palette, now'.used)
    requires Filled(was, src, o, c, now, added)
    requires now'.used ==
      now.used + if Holds(now.palette, now.used, src.Colour(c)) || now.used == PALETTE_SIZE then 0 else 1
    requires forall i :: now.used <= i < now'.used ==> now'.palette[i] == src.Colour(c)
    ensures Filled(was, src, o, c.(x := c.x + 1), now', added')
  {
    var next := c.(x := c.x + 1);
    var rgba := src.Colour(c);
    assert NewColours(was, src, o, c) <= NewColours(was, src, o, next);
    forall x | Holds(now.palette, now.used, x)
      ensures Holds(now'.palette, now'.used, x)
    {
      HoldsStable(now.palette, now.used, now'.palette, now'.used, x);
    }
    if now'.used == now.used {
      added' := added;
    } else {
      added' := added + {rgba};
      if Holds(was.palette, was.used, rgba) {
        HoldsStable(was.palette, was.used, now.palette, now.used, rgba);
        assert false;
      }
      assert Stamped(src, o, next, c);
      assert rgba in NewColours(was, src, o, next);
      assert now'.palette[now.used] == rgba;
      assert Holds(now'.palette, now'.used, rgba);
      assert rgba !in added;
    }
  }

  lemma ShownIffHeld(was: Canvas, src: Model, o: Cell, next: Cell, now: Canvas, c: Cell)
    requires Overlaid(was, src, o, next, now) && Stamped(src, o, next, c)
    ensures var idx := At(now.voxels, Shift(c, o));
      1 <= idx && (now.palette[idx] == src.Colour(c) <==> Holds(now.palette, now.used, src.Colour(c)))
    ensures Holds(now.palette, now.used, src.Colour(c)) || now.used == PALETTE_SIZE
  {
    assert Unshift(Shift(c, o), o) == c;
    ExactWhenHeld(now.palette, now.used, src.Colour(c), At(now.voxels, Shift(c, o)));
  }

  lemma ExactNeedsRoom(was: Canvas, src: Model, o: Cell, next: Cell, now: Canvas, added: set<Word>)
    requires Overlaid(was, src, o, next, now) && Filled(was, src, o, next, now, added)
    requires AllExact(src, o, next, now)
    ensures |NewColours(was, src, o, next)| <= PALETTE_SIZE - was.used
  {
    forall rgba <- NewColours(was, src, o, next)
      ensures rgba in added
    {
      var c :| c in src.solid && Stamped(src, o, next, c) && src.Colour(c) == rgba
        && !Holds(was.palette, was.used, rgba);
      ShownIffHeld(was, src, o, next, now, c);
      HeldSince(was, now, rgba);
    }
    SubsetSize(NewColours(was, src, o, next), added);
  }

  lemma RoomGivesExact(was: Canvas, src: Model, o: Cell, next: Cell, now: Canvas, added: set<Word>, c: Cell)
    requires Overlaid(was, src, o, next, now) && Filled(was, src, o, next, now, added)
    requires |NewColours(was, src, o, next)| <= PALETTE_SIZE - was.used
    requires Stamped(src, o, next, c)
    ensures Holds(now.palette, now.used, src.Colour(c))
  {
    var rgba := src.Colour(c);
    ShownIffHeld(was, src, o, next, now, c);
    if !Holds(now.palette, now.used, rgba) {
      assert !Holds(was.palette, was.used, rgba) by {
        if Holds(was.palette, was.used, rgba) {
          HoldsStable(was.palette, was.used, now.palette, now.used, rgba);
        }
      }
      assert rgba in NewColours(was, src, o, next) && rgba !in added;
      SubsetSize(added + {rgba}, NewColours(was, src, o, next));
    }
  }

  // A cell that does not land brings nothing.
  lemma SkipFill(was: Canvas, src: Model, o: Cell, c: Cell, now: Canvas, added: set<Word>)
    requires c !in src.solid || !InGrid(Shift(c, o))
    requires Filled(was, src, o, c, now, added)
    ensures Filled(was, src, o, c.(x := c.x + 1), now, added)
  {
    forall d
      ensures Stamped(src, o, c.(x := c.x + 1), d) <==> Stamped(src, o, c, d)
    {
    }
    assert NewColours(was, src, o, c.(x := c.x + 1)) == NewColours(was, src, o, c);
  }

  // The stamp shows every colour exactly if and only if its new colours fit in the free slots.
  lemma ExactIffHeadroom(was: Canvas, src: Model, o: Cell, next: Cell, now: Canvas, added: set<Word>)
    requires Overlaid(was, src, o, next, now) && Filled(was, src, o, next, now, added)
    ensures AllExact(src, o, next, now) <==> |NewColours(was, src, o, next)| <= PALETTE_SIZE - was.used
  {
    if AllExact(src, o, next, now) {
      ExactNeedsRoom(was, src, o, next, now, added);
    }
    if |NewColours(was, src, o, next)| <= PALETTE_SIZE - was.used {
      forall c <- src.solid | Stamped(src, o, next, c)
        ensures var idx := At(now.voxels, Shift(c, o)); idx != 0 && now.palette[idx] == src.Colour(c)
      {
        ShownIffHeld(was, src, o, next, now, c);
        RoomGivesExact(was, src, o, next, now, added, c);
      }
    }
  }

  lemma HoldsStable(p: Palette, used: nat, p': Palette, used': nat, rgba: Word)
    requires Extends(p, used, p', used') && Holds(p, used, rgba)
    ensures Holds(p', used', rgba)
  {
    var i :| 1 <= i < used && p[i] == rgba;
    assert p'[i] == rgba;
  }

  lemma HeldSince(was: Canvas, now: Canvas, rgba: Word)
    requires Extends(was.palette, was.used, now.palette, now.used)
    requires Holds(now.palette, now.used, rgba) && !Holds(was.palette, was.used, rgba)
    ensures exists i :: was.used <= i < now.used && now.palette[i] == rgba
  {
    var i :| 1 <= i < now.used && now.palette[i] == rgba;
  }

  lemma SubsetSize<T>(a: set<T>, b: set<T>)
    requires a <= b
    ensures |a| <= |b|
  {
    if a != {} {
      var x :| x in a;
      SubsetSize(a - {x}, b - {x});
    }
  }

  // ------------------------------------------------------------------------------------------
  // The finished stamp
  // ------------------------------------------------------------------------------------------

  ghost predicate Lands(src: Model, o: Cell, c: Cell) {
    c in src.solid && InGrid(Shift(c, o))
  }

  ghost predicate StampOf(was: Canvas, src: Model, o: Cell, now: Canvas) {
    && Extends(was.palette, was.used, now.palette, now.used)
    && forall d {:trigger At(now.voxels, d)} ::
         if Lands(src, o, Unshift(d, o))
         then StandsFor(now.palette, now.used, src.Colour(Unshift(d, o)), At(now.voxels, d))
         else At(now.voxels, d) == At(was.voxels, d)
  }

  ghost function BroughtColours(was: Canvas, src: Model, o: Cell): set<Word> {
    set c | c in src.solid && Lands(src, o, c) && !Holds(was.palette, was.used, src.Colour(c)) :: src.Colour(c)
  }

  ghost predicate ColoursKept(src: Model, o: Cell, now: Canvas) {
    forall c <- src.solid :: Lands(src, o, c) ==>
      var idx := At(now.voxels, Shift(c, o)); idx != 0 && now.palette[idx] == src.Colour(c)
  }

  ghost predicate HasRoom(was: Canvas, src: Model, o: Cell) {
    |BroughtColours(was, src, o)| <= PALETTE_SIZE - was.used
  }

  lemma FinishStamp(was: Canvas, src: Model, o: Cell, next: Cell, now: Canvas, added: set<Word>)
    requires forall c <- src.solid :: Precedes(c, next)
    requires Overlaid(was, src, o, next, now) && Filled(was, src, o, next, now, added)
    ensures StampOf(was, src, o, now)
    ensures ColoursKept(src, o, now) <==> HasRoom(was, src, o)
  {
    ExactIffHeadroom(was, src, o, next, now, added);
    forall c
      ensures Stamped(src, o, next, c) <==> Lands(src, o, c)
    {
    }
    assert NewColours(was, src, o, next) == BroughtColours(was, src, o);
  }

  // A full palette takes no new colours: a stamp leaves it as it is, and shows its own colours
  // exactly only if the palette already holds every one of them.
  lemma FullPaletteStays(was: Canvas, src: Model, o: Cell, now: Canvas)
    requires was.used == PALETTE_SIZE && StampOf(was, src, o, now)
    ensures now.palette == was.palette && now.used == was.used
    ensures HasRoom(was, src, o) <==>
      forall c <- src.solid :: Lands(src, o, c) ==> Holds(was.palette, was.used, src.Colour(c))
  {
    var brought := BroughtColours(was, src, o);
    if HasRoom(was, src, o) {
      forall c <- src.solid | Lands(src, o, c)
        ensures Holds(was.palette, was.used, src.Colour(c))
      {
        assert brought == {};
        assert src.Colour(c) !in brought;
      }
    }
  }
}
