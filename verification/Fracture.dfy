// Breaking a carved ball into pieces: an exact partition of the voxels the carve removes.
module Fracture {
  import opened Grid
  import opened Terrain
  import opened Vectors

  // ------------------------------------------------------------------------------------------
  // Splitting the carve box
  // ------------------------------------------------------------------------------------------

  // Number of pieces along an axis; rounding half away from zero is floor(x + 1/2) for x >= 0.
  function Splits(extent: nat, scale: real): (n: nat)
    ensures NearestCount(extent, scale, n)
  {
    var parts := extent as real / MaxR(2.0, 4.0 * scale);
    RoundsToNearest(extent as real, MaxR(2.0, 4.0 * scale), Clamp((parts + 0.5).Floor, 1, 4));
    Clamp((parts + 0.5).Floor, 1, 4)
  }

  // From 1 to 4 parts, n come nearest to the extent if each is 4 * scale cells wide, but no less than 2.
  ghost predicate NearestCount(extent: nat, scale: real, n: int) {
    && 1 <= n <= 4
    && (n > 1 ==> Reaches(extent, n as real - 0.5, 2.0) && Reaches(extent, n as real - 0.5, 4.0 * scale))
    && (n < 4 ==> !Reaches(extent, n as real + 0.5, 2.0) || !Reaches(extent, n as real + 0.5, 4.0 * scale))
  }

  predicate Reaches(extent: nat, parts: real, size: real) {
    Mul(parts, size) <= extent as real
  }

  lemma RoundsToNearest(e: real, size: real, n: int)
    requires e >= 0.0 && size >= 2.0 && n == Clamp((e / size + 0.5).Floor, 1, 4)
    ensures 1 <= n <= 4
    ensures n > 1 ==> Mul(n as real - 0.5, size) <= e
    ensures n < 4 ==> e < Mul(n as real + 0.5, size)
  {
    var parts := e / size;
    WholeAgain(e, size);
    WiderIsLonger(n as real - 0.5, parts, size);
    WiderIsLonger(parts, n as real + 0.5, size);
    hide Mul;
  }

  lemma WholeAgain(e: real, size: real)
    requires size > 0.0
    ensures Mul(e / size, size) == e
  {
  }

  lemma WiderIsLonger(a: real, b: real, size: real)
    requires size > 0.0
    ensures a <= b ==> Mul(a, size) <= Mul(b, size)
    ensures a < b ==> Mul(a, size) < Mul(b, size)
  {
  }

  // The parts of an extent are equally wide, up to one cell.
  lemma SplitWidth(lo: int, hi: int, s: nat, n: nat)
    requires 1 <= n <= 4 && s < n && lo <= hi
    ensures EvenWidth(hi - lo, n, SplitAt(lo, hi, s + 1, n) - SplitAt(lo, hi, s, n))
  {
  }

  predicate EvenWidth(extent: nat, n: int, width: int)
    requires n > 0
  {
    extent / n <= width <= extent / n + 1
  }

  function SplitAt(lo: int, hi: int, s: nat, n: nat): int
    requires n > 0 && lo <= hi
  {
    lo + (hi - lo) * s / n
  }

  // Part s of n begins at the last cell boundary that is not past s n-ths of the extent.
  lemma PartBegins(lo: int, hi: int, s: nat, n: nat)
    requires n > 0 && lo <= hi
    ensures var cut := SplitAt(lo, hi, s, n) - lo; cut * n <= (hi - lo) * s < (cut + 1) * n
  {
    var e := (hi - lo) * s;
    assert e == e / n * n + e % n;
  }

  function SubBox(b: Box, n: Cell, s: Cell): Box
    requires !EmptyBox(b) && n.x > 0 && n.y > 0 && n.z > 0
    requires 0 <= s.x && 0 <= s.y && 0 <= s.z
  {
    Box(SplitAt(b.x0, b.x1, s.x, n.x), SplitAt(b.y0, b.y1, s.y, n.y), SplitAt(b.z0, b.z1, s.z, n.z),
        SplitAt(b.x0, b.x1, s.x + 1, n.x), SplitAt(b.y0, b.y1, s.y + 1, n.y), SplitAt(b.z0, b.z1, s.z + 1, n.z))
  }

  lemma SplitMonotone(lo: int, hi: int, s: nat, s': nat, n: nat)
    requires n > 0 && lo <= hi && s <= s'
    ensures SplitAt(lo, hi, s, n) <= SplitAt(lo, hi, s', n)
  {
    var e: nat := hi - lo;
    MulMonotone(s, s', e);
    DivMonotone(e * s, e * s', n);
  }

  lemma DivMonotone(a: int, b: int, n: nat)
    requires n > 0 && a <= b
    ensures a / n <= b / n
  {
    if a / n > b / n {
      MulMonotone(b / n + 1, a / n, n);
    }
  }

  lemma SplitEnds(lo: int, hi: int, n: nat)
    requires n > 0 && lo <= hi
    ensures SplitAt(lo, hi, 0, n) == lo && SplitAt(lo, hi, n, n) == hi
  {
    var e: nat := hi - lo;
    DigitsUnique(e, 0, e * n / n, e * n % n, n);
  }

  // Some part [s, s+1) holds v; searching below part k.
  lemma PartOf(lo: int, hi: int, n: nat, v: int, k: nat) returns (s: nat)
    requires n > 0 && lo <= v && k <= n && lo <= hi && v < SplitAt(lo, hi, k, n)
    ensures s < k && SplitAt(lo, hi, s, n) <= v < SplitAt(lo, hi, s + 1, n)
  {
    SplitEnds(lo, hi, n);
    if v < SplitAt(lo, hi, k - 1, n) {
      s := PartOf(lo, hi, n, v, k - 1);
    } else {
      s := k - 1;
    }
  }

  // The sub-boxes tile the box: every cell lies in exactly one of them.
  lemma SubBoxesCover(b: Box, n: Cell, c: Cell) returns (s: Cell)
    requires InBox(b, c) && n.x > 0 && n.y > 0 && n.z > 0
    ensures 0 <= s.x < n.x && 0 <= s.y < n.y && 0 <= s.z < n.z && InBox(SubBox(b, n, s), c)
  {
    SplitEnds(b.x0, b.x1, n.x);
    SplitEnds(b.y0, b.y1, n.y);
    SplitEnds(b.z0, b.z1, n.z);
    var x := PartOf(b.x0, b.x1, n.x, c.x, n.x);
    var y := PartOf(b.y0, b.y1, n.y, c.y, n.y);
    var z := PartOf(b.z0, b.z1, n.z, c.z, n.z);
    s := Cell(x, y, z);
  }

  lemma SubBoxesDisjoint(b: Box, n: Cell, s: Cell, s': Cell, c: Cell)
    requires !EmptyBox(b) && n.x > 0 && n.y > 0 && n.z > 0
    requires 0 <= s.x && 0 <= s.y && 0 <= s.z && 0 <= s'.x && 0 <= s'.y && 0 <= s'.z
    requires InBox(SubBox(b, n, s), c) && InBox(SubBox(b, n, s'), c)
    ensures s == s'
  {
    PartUnique(b.x0, b.x1, n.x, s.x, s'.x, c.x);
    PartUnique(b.y0, b.y1, n.y, s.y, s'.y, c.y);
    PartUnique(b.z0, b.z1, n.z, s.z, s'.z, c.z);
  }

  lemma PartUnique(lo: int, hi: int, n: nat, s: nat, s': nat, v: int)
    requires n > 0 && lo <= hi
    requires SplitAt(lo, hi, s, n) <= v < SplitAt(lo, hi, s + 1, n)
    requires SplitAt(lo, hi, s', n) <= v < SplitAt(lo, hi, s' + 1, n)
    ensures s == s'
  {
    hide SplitAt;
    if s < s' {
      SplitMonotone(lo, hi, s + 1, s', n);
    } else if s' < s {
      SplitMonotone(lo, hi, s' + 1, s, n);
    }
  }

  lemma SubBoxInside(b: Box, n: Cell, s: Cell)
    requires !EmptyBox(b) && 0 <= s.x < n.x && 0 <= s.y < n.y && 0 <= s.z < n.z
    ensures var k := SubBox(b, n, s);
      b.x0 <= k.x0 <= k.x1 <= b.x1 && b.y0 <= k.y0 <= k.y1 <= b.y1 && b.z0 <= k.z0 <= k.z1 <= b.z1
  {
    SplitEnds(b.x0, b.x1, n.x);
    SplitMonotone(b.x0, b.x1, 0, s.x, n.x);
    SplitMonotone(b.x0, b.x1, s.x, s.x + 1, n.x);
    SplitMonotone(b.x0, b.x1, s.x + 1, n.x, n.x);
    SplitEnds(b.y0, b.y1, n.y);
    SplitMonotone(b.y0, b.y1, 0, s.y, n.y);
    SplitMonotone(b.y0, b.y1, s.y, s.y + 1, n.y);
    SplitMonotone(b.y0, b.y1, s.y + 1, n.y, n.y);
    SplitEnds(b.z0, b.z1, n.z);
    SplitMonotone(b.z0, b.z1, 0, s.z, n.z);
    SplitMonotone(b.z0, b.z1, s.z, s.z + 1, n.z);
    SplitMonotone(b.z0, b.z1, s.z + 1, n.z, n.z);
  }

  // ------------------------------------------------------------------------------------------
  // Pieces
  // ------------------------------------------------------------------------------------------

  // The solid voxels a carve removes.
  function CarvedCells(m: Voxels, centre: Cell, radius: int): set<Cell> {
    set c | c in m && Carved(centre, radius, c)
  }

  // ... the ones of them in a box.
  function CapturedIn(m: Voxels, centre: Cell, radius: int, k: Box): set<Cell> {
    set c | c in m && InBall(centre, radius, c) && InBox(k, c)
  }

  // How many planes of the grid lie within the radius of a coordinate.
  function Extent(v: int, radius: int): nat {
    Max(Min(WORLD_DIM - 1, v + radius) - Max(0, v - radius) + 1, 0)
  }

  // A blast: what is carved, out of what, and in how many parts per axis.
  datatype Blast = Blast(m: Voxels, centre: Cell, radius: int, n: Cell) {
    predicate Valid() {
      !EmptyBox(CarveBox(centre, radius)) && n.x > 0 && n.y > 0 && n.z > 0
    }

    // The carve reaches from the centre to the radius on each axis, as far as the grid goes. It is
    // split into the number of parts that fits the scale best, all of one size up to one cell.
    ghost predicate EvenlySplit(scale: real)
      requires Valid()
    {
      && Extent(centre.x, radius) > 0 && Extent(centre.y, radius) > 0 && Extent(centre.z, radius) > 0
      && NearestCount(Extent(centre.x, radius), scale, n.x)
      && NearestCount(Extent(centre.y, radius), scale, n.y)
      && NearestCount(Extent(centre.z, radius), scale, n.z)
      && forall s: Cell :: 0 <= s.x < n.x && 0 <= s.y < n.y && 0 <= s.z < n.z ==>
           var k := Part(s);
           && EvenWidth(Extent(centre.x, radius), n.x, k.x1 - k.x0)
           && EvenWidth(Extent(centre.y, radius), n.y, k.y1 - k.y0)
           && EvenWidth(Extent(centre.z, radius), n.z, k.z1 - k.z0)
    }

    function Part(s: Cell): Box
      requires Valid() && 0 <= s.x && 0 <= s.y && 0 <= s.z
    {
      SubBox(CarveBox(centre, radius), n, s)
    }

    function Captured(s: Cell): set<Cell>
      requires Valid() && 0 <= s.x && 0 <= s.y && 0 <= s.z
    {
      CapturedIn(m, centre, radius, Part(s))
    }

    predicate Cursor(next: Cell) {
      && 0 <= next.x <= n.x && 0 <= next.y <= n.y && 0 <= next.z <= n.z
      && (next.x > 0 ==> next.y < n.y) && (next.x > 0 || next.y > 0 ==> next.z < n.z)
    }

    // The non-empty pieces of the parts before `next`, in loop order.
    ghost function PiecesBefore(next: Cell): seq<set<Cell>>
      requires Valid() && Cursor(next)
      decreases next.z, next.y, next.x
    {
      if next.x > 0 then
        var s := next.(x := next.x - 1);
        PiecesBefore(s) + (if Captured(s) == {} then [] else [Captured(s)])
      else if next.y > 0 then PiecesBefore(Cell(n.x, next.y - 1, next.z))
      else if next.z > 0 then PiecesBefore(Cell(0, n.y, next.z - 1))
      else []
    }

    ghost function Pieces(): seq<set<Cell>>
      requires Valid()
    {
      PiecesBefore(Cell(0, 0, n.z))
    }
  }

  lemma SplitsEvenly(b: Blast, scale: real)
    requires b.Valid()
    requires var k := CarveBox(b.centre, b.radius);
      && NearestCount(k.x1 - k.x0, scale, b.n.x) && NearestCount(k.y1 - k.y0, scale, b.n.y)
      && NearestCount(k.z1 - k.z0, scale, b.n.z)
    ensures b.EvenlySplit(scale)
  {
    hide NearestCount, SubBox, EvenWidth, CarveBox, Extent;
    var k := CarveBox(b.centre, b.radius);
    CarvedExtents(b.centre, b.radius);
    CountInRange(k.x1 - k.x0, scale, b.n.x);
    CountInRange(k.y1 - k.y0, scale, b.n.y);
    CountInRange(k.z1 - k.z0, scale, b.n.z);
    forall s: Cell | 0 <= s.x < b.n.x && 0 <= s.y < b.n.y && 0 <= s.z < b.n.z
      ensures var p := b.Part(s);
        && EvenWidth(k.x1 - k.x0, b.n.x, p.x1 - p.x0)
        && EvenWidth(k.y1 - k.y0, b.n.y, p.y1 - p.y0)
        && EvenWidth(k.z1 - k.z0, b.n.z, p.z1 - p.z0)
    {
      PartWidths(k, b.n, s);
    }
  }

  lemma PartWidths(k: Box, n: Cell, s: Cell)
    requires !EmptyBox(k) && 1 <= n.x <= 4 && 1 <= n.y <= 4 && 1 <= n.z <= 4
    requires 0 <= s.x < n.x && 0 <= s.y < n.y && 0 <= s.z < n.z
    ensures var p := SubBox(k, n, s);
      && EvenWidth(k.x1 - k.x0, n.x, p.x1 - p.x0)
      && EvenWidth(k.y1 - k.y0, n.y, p.y1 - p.y0)
      && EvenWidth(k.z1 - k.z0, n.z, p.z1 - p.z0)
  {
    hide SplitAt, EvenWidth;
    SplitWidth(k.x0, k.x1, s.x, n.x);
    SplitWidth(k.y0, k.y1, s.y, n.y);
    SplitWidth(k.z0, k.z1, s.z, n.z);
  }

  lemma CarvedExtents(centre: Cell, radius: int)
    requires !EmptyBox(CarveBox(centre, radius))
    ensures var k := CarveBox(centre, radius);
      && Extent(centre.x, radius) == k.x1 - k.x0 > 0
      && Extent(centre.y, radius) == k.y1 - k.y0 > 0
      && Extent(centre.z, radius) == k.z1 - k.z0 > 0
  {
  }

  lemma CountInRange(extent: nat, scale: real, n: int)
    requires NearestCount(extent, scale, n)
    ensures 1 <= n <= 4
  {
  }

  function Union(pieces: seq<set<Cell>>): set<Cell> {
    if pieces == [] then {} else Union(pieces[..|pieces| - 1]) + pieces[|pieces| - 1]
  }

  function TotalSize(pieces: seq<set<Cell>>): nat {
    if pieces == [] then 0 else TotalSize(pieces[..|pieces| - 1]) + |pieces[|pieces| - 1]|
  }

  ghost predicate Disjoint(pieces: seq<set<Cell>>) {
    forall i, j :: 0 <= i < j < |pieces| ==> pieces[i] !! pieces[j]
  }

  lemma {:induction false} UnionHas(pieces: seq<set<Cell>>)
    ensures forall c :: c in Union(pieces) <==> exists i :: 0 <= i < |pieces| && c in pieces[i]
  {
    if pieces != [] {
      UnionHas(pieces[..|pieces| - 1]);
      forall c | c in Union(pieces)
        ensures exists i :: 0 <= i < |pieces| && c in pieces[i]
      {
        if c in Union(pieces[..|pieces| - 1]) {
          var i :| 0 <= i < |pieces| - 1 && c in pieces[..|pieces| - 1][i];
          assert c in pieces[i];
        }
      }
      forall i, c | 0 <= i < |pieces| && c in pieces[i]
        ensures c in Union(pieces)
      {
        if i < |pieces| - 1 {
          assert c in pieces[..|pieces| - 1][i];
        }
      }
    }
  }

  lemma {:induction false} DisjointSizes(pieces: seq<set<Cell>>)
    requires Disjoint(pieces)
    ensures TotalSize(pieces) == |Union(pieces)|
  {
    if pieces != [] {
      var init, last := pieces[..|pieces| - 1], pieces[|pieces| - 1];
      assert Disjoint(init);
      DisjointSizes(init);
      UnionHas(init);
      assert Union(init) !! last by {
        forall c | c in Union(init)
          ensures c !in last
        {
          var i :| 0 <= i < |init| && c in init[i];
          assert pieces[i] !! last;
        }
      }
    }
  }

  // Where the cells of the pieces before `next` come from.
  ghost predicate FromPart(b: Blast, s: Cell, c: Cell) {
    && b.Valid() && 0 <= s.x < b.n.x && 0 <= s.y < b.n.y && 0 <= s.z < b.n.z
    && c in b.Captured(s)
  }

  ghost predicate PiecesDone(b: Blast, next: Cell, pieces: seq<set<Cell>>) {
    && Disjoint(pieces) && (forall i :: 0 <= i < |pieces| ==> pieces[i] != {})
    && (forall c :: c in Union(pieces) <==> exists s :: Precedes(s, next) && FromPart(b, s, c))
  }

  lemma {:induction false} PiecesBeforeDone(b: Blast, next: Cell)
    requires b.Valid() && b.Cursor(next)
    ensures PiecesDone(b, next, b.PiecesBefore(next))
    decreases next.z, next.y, next.x
  {
    if next.x > 0 {
      var s := next.(x := next.x - 1);
      PiecesBeforeDone(b, s);
      AddPiece(b, s, b.PiecesBefore(s));
    } else if next.y > 0 {
      var prev := Cell(b.n.x, next.y - 1, next.z);
      PiecesBeforeDone(b, prev);
      assert forall s, c :: FromPart(b, s, c) ==> (Precedes(s, prev) <==> Precedes(s, next));
    } else if next.z > 0 {
      var prev := Cell(0, b.n.y, next.z - 1);
      PiecesBeforeDone(b, prev);
      assert forall s, c :: FromPart(b, s, c) ==> (Precedes(s, prev) <==> Precedes(s, next));
    } else {
      assert forall s, c :: FromPart(b, s, c) ==> !Precedes(s, next);
    }
  }

  lemma AddPiece(b: Blast, s: Cell, pieces: seq<set<Cell>>)
    requires b.Valid() && 0 <= s.x < b.n.x && 0 <= s.y < b.n.y && 0 <= s.z < b.n.z && PiecesDone(b, s, pieces)
    ensures PiecesDone(b, s.(x := s.x + 1), pieces + if b.Captured(s) == {} then [] else [b.Captured(s)])
  {
    hide Blast.Captured;
    var next, mine := s.(x := s.x + 1), b.Captured(s);
    var longer := pieces + if mine == {} then [] else [mine];
    if mine != {} {
      assert longer[..|longer| - 1] == pieces;
    } else {
      assert longer == pieces;
    }
    assert Union(longer) == Union(pieces) + mine;
    forall c
      ensures c in Union(longer) <==> exists r :: Precedes(r, next) && FromPart(b, r, c)
    {
      if c in Union(pieces) {
        var r :| Precedes(r, s) && FromPart(b, r, c);
        assert Precedes(r, next);
      }
      if c in mine {
        assert Precedes(s, next) && FromPart(b, s, c);
      }
      if r :| Precedes(r, next) && FromPart(b, r, c) {
        assert Precedes(r, s) || r == s;
      }
    }
    NewPieceDisjoint(b, s, pieces);
  }

  lemma NewPieceDisjoint(b: Blast, s: Cell, pieces: seq<set<Cell>>)
    requires b.Valid() && 0 <= s.x < b.n.x && 0 <= s.y < b.n.y && 0 <= s.z < b.n.z && PiecesDone(b, s, pieces)
    ensures forall i :: 0 <= i < |pieces| ==> pieces[i] !! b.Captured(s)
  {
    hide SubBox;
    UnionHas(pieces);
    forall i, c | 0 <= i < |pieces| && c in pieces[i]
      ensures c !in b.Captured(s)
    {
      assert c in Union(pieces);
      var r :| Precedes(r, s) && FromPart(b, r, c);
      if c in b.Captured(s) {
        SubBoxesDisjoint(CarveBox(b.centre, b.radius), b.n, r, s, c);
      }
    }
  }

  // The pieces are pairwise disjoint, none is empty, and together they are exactly the solid
  // voxels the carve removes.
  lemma PiecesPartitionTheCarve(b: Blast)
    requires b.Valid() && b.radius >= 0
    ensures Disjoint(b.Pieces()) && (forall i :: 0 <= i < |b.Pieces()| ==> b.Pieces()[i] != {})
    ensures Union(b.Pieces()) == CarvedCells(b.m, b.centre, b.radius)
  {
    var end := Cell(0, 0, b.n.z);
    PiecesBeforeDone(b, end);
    var box := CarveBox(b.centre, b.radius);
    forall c
      ensures c in Union(b.Pieces()) <==> c in CarvedCells(b.m, b.centre, b.radius)
    {
      if c in CarvedCells(b.m, b.centre, b.radius) {
        CarvedInBox(b.centre, b.radius, c);
        var s := SubBoxesCover(box, b.n, c);
        assert Precedes(s, end) && FromPart(b, s, c);
      }
      if c in Union(b.Pieces()) {
        var s :| Precedes(s, end) && FromPart(b, s, c);
        SubBoxInside(box, b.n, s);
      }
    }
  }

  // Spawning the first k pieces conserves the carved voxels if and only if none is left out.
  lemma ConservedIffAllSpawned(b: Blast, k: nat)
    requires b.Valid() && b.radius >= 0 && k <= |b.Pieces()|
    ensures TotalSize(b.Pieces()) == |CarvedCells(b.m, b.centre, b.radius)|
    ensures TotalSize(b.Pieces()[..k]) == |CarvedCells(b.m, b.centre, b.radius)| <==> k == |b.Pieces()|
  {
    PiecesPartitionTheCarve(b);
    DisjointSizes(b.Pieces());
    assert b.Pieces()[..|b.Pieces()|] == b.Pieces();
    FewerIsLess(b.Pieces(), k);
  }

  lemma {:induction false} FewerIsLess(pieces: seq<set<Cell>>, k: nat)
    requires k <= |pieces| && forall i :: 0 <= i < |pieces| ==> pieces[i] != {}
    ensures if k == |pieces| then TotalSize(pieces[..k]) == TotalSize(pieces)
            else TotalSize(pieces[..k]) < TotalSize(pieces)
  {
    if k == |pieces| {
      assert pieces[..k] == pieces;
    } else {
      var init := pieces[..|pieces| - 1];
      assert |pieces[|pieces| - 1]| > 0;
      FewerIsLess(init, k);
      assert init[..k] == pieces[..k];
    }
  }

  // What CarveSphere reports is the number of those voxels.
  lemma CarveCount(m: Voxels, centre: Cell, radius: int)
    ensures |m| - |AfterCarve(m, centre, radius)| == |CarvedCells(m, centre, radius)|
  {
    var kept, gone := AfterCarve(m, centre, radius), CarvedCells(m, centre, radius);
    assert m.Keys == kept.Keys + gone && kept.Keys !! gone;
  }
}
