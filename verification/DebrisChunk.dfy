// A rigid fracture chunk: where its captured voxels show up under a pose, and the box they can reach.
module DebrisChunks {
  import opened Grid
  import opened Physics
  import opened Rotation
  import opened Vectors

  datatype DebrisChunk = DebrisChunk(
    dx: nat, dy: nat, dz: nat,       // extents of the local material grid
    mats: seq<Byte>,                 // dx*dy*dz materials, 0 meaning empty
    solidCount: nat,
    localC: Vec3,                    // centre of the local box, the body's centre of mass
    id: int,                         // pooled body
    age: real,
    hasPrev: bool, prev: Box,        // box painted last
    cur: Box,                        // this frame's box
    pose: Pose,                      // this frame's transform
    region: seq<Word>)               // upload buffer for `cur`

  predicate ChunkShape(t: DebrisChunk) {
    && t.dx > 0 && t.dy > 0 && t.dz > 0
    && |t.mats| == t.dz * t.dy * t.dx
    && t.localC == Vec3(0.5 * t.dx as real, 0.5 * t.dy as real, 0.5 * t.dz as real)
  }

  predicate InLocal(t: DebrisChunk, l: Cell) {
    0 <= l.x < t.dx && 0 <= l.y < t.dy && 0 <= l.z < t.dz
  }

  function Idx(t: DebrisChunk, l: Cell): int {
    l.z * t.dx * t.dy + l.y * t.dx + l.x
  }

  lemma IdxHorner(t: DebrisChunk, l: Cell)
    ensures Idx(t, l) == (l.z * t.dy + l.y) * t.dx + l.x
  {
    Horner(l.z, l.y, t.dx, t.dy);
  }

  lemma Horner(z: int, y: int, dx: int, dy: int)
    ensures z * dx * dy + y * dx == (z * dy + y) * dx
  {
  }

  lemma IdxBound(t: DebrisChunk, l: Cell)
    requires InLocal(t, l) && |t.mats| == t.dz * t.dy * t.dx
    ensures 0 <= Idx(t, l) < |t.mats|
  {
    DigitBound(l.z, l.y, t.dz, t.dy);
    DigitBound(l.z * t.dy + l.y, l.x, t.dz * t.dy, t.dx);
    IdxHorner(t, l);
    hide Idx;
  }

  lemma IdxInjective(t: DebrisChunk, l: Cell, k: Cell)
    requires InLocal(t, l) && InLocal(t, k) && Idx(t, l) == Idx(t, k)
    ensures l == k
  {
    IdxHorner(t, l);
    IdxHorner(t, k);
    hide Idx;
    DigitsUnique(l.z * t.dy + l.y, l.x, k.z * t.dy + k.y, k.x, t.dx);
    DigitsUnique(l.z, l.y, k.z, k.y, t.dy);
  }

  lemma IdxFollowsLoops(t: DebrisChunk, l: Cell, k: Cell)
    requires InLocal(t, l) && InLocal(t, k)
    ensures Idx(t, l) < Idx(t, k) <==> Precedes(l, k)
  {
    IdxHorner(t, l);
    IdxHorner(t, k);
    hide Idx;
    DigitsOrder(l.z * t.dy + l.y, l.x, k.z * t.dy + k.y, k.x, t.dx);
    DigitsOrder(l.z, l.y, k.z, k.y, t.dy);
    DigitsOrder(k.z, k.y, l.z, l.y, t.dy);
  }

  // World cell centre -> delta from the body -> inverse rotation.
  function LocalDelta(pose: Pose, c: Cell): Vec3 {
    QuatRotateInv(pose, Vec3(c.x as real + 0.5 - pose.px, c.y as real + 0.5 - pose.py, c.z as real + 0.5 - pose.pz))
  }

  // The local voxel that holds the centre of world cell c.
  function LocalCell(t: DebrisChunk, pose: Pose, c: Cell): Cell {
    var l := LocalDelta(pose, c);
    Cell((l.x + t.localC.x).Floor, (l.y + t.localC.y).Floor, (l.z + t.localC.z).Floor)
  }

  // Material the chunk shows in world cell c, 0 for none.
  function Sample(t: DebrisChunk, pose: Pose, c: Cell): Byte
    requires |t.mats| == t.dz * t.dy * t.dx
  {
    var l := LocalCell(t, pose, c);
    if InLocal(t, l) then IdxBound(t, l); t.mats[Idx(t, l)] else 0
  }

  // Where a point given in the chunk's own coordinates is in the world.
  function Moved(t: DebrisChunk, pose: Pose, u: Vec3): Vec3 {
    var r := QuatRotate(pose, Vec3(u.x - t.localC.x, u.y - t.localC.y, u.z - t.localC.z));
    Vec3(pose.px + r.x, pose.py + r.y, pose.pz + r.z)
  }

  // The pose puts the chunk's voxel place l over the centre of the world's cell c.
  ghost predicate Covering(t: DebrisChunk, pose: Pose, l: Cell, c: Cell) {
    exists u: Vec3 :: Inside(l, u) && Moved(t, pose, u) == Vec3(c.x as real + 0.5, c.y as real + 0.5, c.z as real + 0.5)
  }

  predicate Inside(l: Cell, u: Vec3) {
    && l.x as real <= u.x < l.x as real + 1.0
    && l.y as real <= u.y < l.y as real + 1.0
    && l.z as real <= u.z < l.z as real + 1.0
  }

  // Exactly one place lies over the centre of a cell, and its material is what the chunk shows there.
  lemma SampleIsCovering(t: DebrisChunk, pose: Pose, c: Cell) returns (l: Cell)
    requires |t.mats| == t.dz * t.dy * t.dx && Unit(pose)
    ensures Covering(t, pose, l, c) && forall l' :: Covering(t, pose, l', c) ==> l' == l
    ensures Sample(t, pose, c) == if InLocal(t, l) then IdxBound(t, l); t.mats[Idx(t, l)] else 0
  {
    l := LocalCell(t, pose, c);
    var v := LocalDelta(pose, c);
    var u := Vec3(v.x + t.localC.x, v.y + t.localC.y, v.z + t.localC.z);
    PlaceAt(t, pose, c, u);
    hide Idx, LocalDelta, Moved, Unit;
    assert Inside(l, u);
    forall l' | Covering(t, pose, l', c)
      ensures l' == l
    {
      var u' :| Inside(l', u') && Moved(t, pose, u') == Vec3(c.x as real + 0.5, c.y as real + 0.5, c.z as real + 0.5);
      PlaceAt(t, pose, c, u');
    }
  }

  // The point that is moved to a cell's centre is the one the inverse rotation finds.
  lemma PlaceAt(t: DebrisChunk, pose: Pose, c: Cell, u: Vec3)
    requires Unit(pose)
    ensures Moved(t, pose, u) == Vec3(c.x as real + 0.5, c.y as real + 0.5, c.z as real + 0.5) <==>
      var v := LocalDelta(pose, c); u == Vec3(v.x + t.localC.x, v.y + t.localC.y, v.z + t.localC.z)
  {
    var w := Vec3(u.x - t.localC.x, u.y - t.localC.y, u.z - t.localC.z);
    var d := Vec3(c.x as real + 0.5 - pose.px, c.y as real + 0.5 - pose.py, c.z as real + 0.5 - pose.pz);
    RotationsInvert(pose, w);
    RotationsInvert(pose, d);
    hide QuatRotate, QuatRotateInv, Unit;
    assert QuatRotate(pose, w) == d <==> w == QuatRotateInv(pose, d);
  }

  // ------------------------------------------------------------------------------------------
  // The eight rotated corners of the local box
  // ------------------------------------------------------------------------------------------

  // Corner offset chosen by a cell of the 2-cube, in the order the loops visit them.
  function CornerOffset(t: DebrisChunk, s: Cell): Vec3 {
    Vec3(if s.z == 0 then -t.localC.x else t.localC.x,
         if s.y == 0 then -t.localC.y else t.localC.y,
         if s.x == 0 then -t.localC.z else t.localC.z)
  }

  function Corner(t: DebrisChunk, pose: Pose, s: Cell): Vec3 {
    var r := QuatRotate(pose, CornerOffset(t, s));
    Vec3(pose.px + r.x, pose.py + r.y, pose.pz + r.z)
  }

  function Ceil(r: real): int {
    -((-r).Floor)
  }

  const FAR: real := 1.0e30

  // The corners before `next` lie between lo and hi, which are tight.
  ghost predicate Spans(t: DebrisChunk, pose: Pose, next: Cell, lo: Vec3, hi: Vec3) {
    && (forall s :: InCube(2, s) && Precedes(s, next) ==>
          var w := Corner(t, pose, s);
          lo.x <= w.x <= hi.x && lo.y <= w.y <= hi.y && lo.z <= w.z <= hi.z)
    && (lo.x == FAR || exists s :: InCube(2, s) && Corner(t, pose, s).x == lo.x)
    && (lo.y == FAR || exists s :: InCube(2, s) && Corner(t, pose, s).y == lo.y)
    && (lo.z == FAR || exists s :: InCube(2, s) && Corner(t, pose, s).z == lo.z)
    && (hi.x == -FAR || exists s :: InCube(2, s) && Corner(t, pose, s).x == hi.x)
    && (hi.y == -FAR || exists s :: InCube(2, s) && Corner(t, pose, s).y == hi.y)
    && (hi.z == -FAR || exists s :: InCube(2, s) && Corner(t, pose, s).z == hi.z)
  }

  lemma SpansStep(t: DebrisChunk, pose: Pose, s: Cell, lo: Vec3, hi: Vec3)
    requires InCube(2, s) && Spans(t, pose, s, lo, hi)
    ensures var w := Corner(t, pose, s);
      Spans(t, pose, s.(x := s.x + 1), Vec3(MinR(lo.x, w.x), MinR(lo.y, w.y), MinR(lo.z, w.z)),
                                       Vec3(MaxR(hi.x, w.x), MaxR(hi.y, w.y), MaxR(hi.z, w.z)))
  {
    hide Corner;
  }

  lemma SpansWrap(t: DebrisChunk, pose: Pose, j: nat, i: nat, lo: Vec3, hi: Vec3)
    ensures Spans(t, pose, Cell(2, j, i), lo, hi) ==> Spans(t, pose, Cell(0, j + 1, i), lo, hi)
    ensures Spans(t, pose, Cell(0, 2, i), lo, hi) ==> Spans(t, pose, Cell(0, 0, i + 1), lo, hi)
  {
    hide Corner;
  }

  // The sides of a corner's cell, padded by one cell and clamped to the grid.
  function LowSide(w: real): int {
    Clamp(w.Floor - 1, 0, WORLD_DIM)
  }

  function HighSide(w: real): int {
    Clamp(Ceil(w) + 1, 0, WORLD_DIM)
  }

  // v is the side of the cell below w, moved out by one cell and then into the grid's range.
  predicate PaddedBelow(w: real, v: int) {
    && 0 <= v <= 128
    && (v > 0 ==> v as real + 1.0 <= w) && (v < 128 ==> w < v as real + 2.0)
  }

  predicate PaddedAbove(w: real, v: int) {
    && 0 <= v <= 128
    && (v < 128 ==> w <= v as real - 1.0) && (v > 0 ==> v as real - 2.0 < w)
  }

  lemma SidesArePadded(w: real, v: int)
    ensures LowSide(w) == v <==> PaddedBelow(w, v)
    ensures HighSide(w) == v <==> PaddedAbove(w, v)
  {
  }

  // The corners of the chunk, in its own coordinates, are moved by the pose.
  lemma CornersAreMoved(t: DebrisChunk, pose: Pose, s: Cell)
    requires ChunkShape(t) && InCube(2, s)
    ensures Corner(t, pose, s) == Moved(t, pose, Vec3(if s.z == 0 then 0.0 else t.dx as real,
                                                      if s.y == 0 then 0.0 else t.dy as real,
                                                      if s.x == 0 then 0.0 else t.dz as real))
  {
    hide QuatRotate;
  }

  // The least box that holds the padded cells of all corners.
  ghost predicate TightBox(t: DebrisChunk, pose: Pose, a: Box) {
    && (forall s :: InCube(2, s) ==>
          var w := Corner(t, pose, s);
          && a.x0 <= LowSide(w.x) && a.y0 <= LowSide(w.y) && a.z0 <= LowSide(w.z)
          && HighSide(w.x) <= a.x1 && HighSide(w.y) <= a.y1 && HighSide(w.z) <= a.z1)
    && (exists s :: InCube(2, s) && LowSide(Corner(t, pose, s).x) == a.x0)
    && (exists s :: InCube(2, s) && LowSide(Corner(t, pose, s).y) == a.y0)
    && (exists s :: InCube(2, s) && LowSide(Corner(t, pose, s).z) == a.z0)
    && (exists s :: InCube(2, s) && HighSide(Corner(t, pose, s).x) == a.x1)
    && (exists s :: InCube(2, s) && HighSide(Corner(t, pose, s).y) == a.y1)
    && (exists s :: InCube(2, s) && HighSide(Corner(t, pose, s).z) == a.z1)
  }

  function PaddedBox(lo: Vec3, hi: Vec3): Box {
    Box(LowSide(lo.x), LowSide(lo.y), LowSide(lo.z), HighSide(hi.x), HighSide(hi.y), HighSide(hi.z))
  }

  // One row of a rotation is largest, and smallest, over the local box at a corner.
  lemma Support(r: Vec3, e: Vec3, l: Vec3)
    requires -e.x <= l.x <= e.x && -e.y <= l.y <= e.y && -e.z <= l.z <= e.z
    ensures Dot(r, Vec3(if r.x < 0.0 then e.x else -e.x,
                        if r.y < 0.0 then e.y else -e.y,
                        if r.z < 0.0 then e.z else -e.z)) <= Dot(r, l)
    ensures Dot(r, l) <= Dot(r, Vec3(if r.x < 0.0 then -e.x else e.x,
                                     if r.y < 0.0 then -e.y else e.y,
                                     if r.z < 0.0 then -e.z else e.z))
  {
    Extreme(r.x, e.x, l.x);
    Extreme(r.y, e.y, l.y);
    Extreme(r.z, e.z, l.z);
    hide Mul;
  }

  lemma Extreme(k: real, e: real, l: real)
    requires -e <= l <= e
    ensures Mul(k, if k < 0.0 then e else -e) <= Mul(k, l) <= Mul(k, if k < 0.0 then -e else e)
  {
    if k >= 0.0 {
      ProductNonNegative(k, e - l);
      ProductNonNegative(k, l + e);
    } else {
      ProductNonNegative(-k, e - l);
      ProductNonNegative(-k, l + e);
    }
  }

  lemma ProductNonNegative(a: real, b: real)
    requires a >= 0.0 && b >= 0.0
    ensures a * b >= 0.0
  {
  }

  // A point of the local box, moved by the pose, lies between the extreme corners on each axis.
  lemma BetweenCorners(t: DebrisChunk, pose: Pose, l: Vec3, lo: Vec3, hi: Vec3)
    requires Unit(pose) && Spans(t, pose, Cell(0, 0, 2), lo, hi)
    requires -t.localC.x <= l.x <= t.localC.x && -t.localC.y <= l.y <= t.localC.y && -t.localC.z <= l.z <= t.localC.z
    ensures var r := QuatRotate(pose, l);
      && lo.x <= pose.px + r.x <= hi.x && lo.y <= pose.py + r.y <= hi.y && lo.z <= pose.pz + r.z <= hi.z
  {
    var m := RotationMatrix(pose);
    RotateIsMatrix(pose, l);
    hide QuatRotate, RotationMatrix, Dot, Unit;
    RowBetween(t, pose, m.a, l);
    RowBetween(t, pose, m.b, l);
    RowBetween(t, pose, m.c, l);
    forall s | InCube(2, s)
      ensures var w := Corner(t, pose, s); var o := CornerOffset(t, s);
        w == Vec3(pose.px + Dot(m.a, o), pose.py + Dot(m.b, o), pose.pz + Dot(m.c, o))
        && lo.x <= w.x <= hi.x && lo.y <= w.y <= hi.y && lo.z <= w.z <= hi.z
    {
      RotateIsMatrix(pose, CornerOffset(t, s));
      assert Precedes(s, Cell(0, 0, 2));
    }
  }

  lemma RowBetween(t: DebrisChunk, pose: Pose, r: Vec3, l: Vec3)
    requires -t.localC.x <= l.x <= t.localC.x && -t.localC.y <= l.y <= t.localC.y && -t.localC.z <= l.z <= t.localC.z
    ensures exists s :: InCube(2, s) && Dot(r, CornerOffset(t, s)) <= Dot(r, l)
    ensures exists s :: InCube(2, s) && Dot(r, l) <= Dot(r, CornerOffset(t, s))
  {
    Support(r, t.localC, l);
    var low := Cell(if r.z < 0.0 then 1 else 0, if r.y < 0.0 then 1 else 0, if r.x < 0.0 then 1 else 0);
    var high := Cell(if r.z < 0.0 then 0 else 1, if r.y < 0.0 then 0 else 1, if r.x < 0.0 then 0 else 1);
    assert InCube(2, low) && InCube(2, high);
    hide Dot;
  }

  // Every grid cell whose centre maps into the local box lies inside the padded, clamped box.
  lemma BoxIsConservative(t: DebrisChunk, pose: Pose, lo: Vec3, hi: Vec3, c: Cell)
    requires ChunkShape(t) && Unit(pose) && Spans(t, pose, Cell(0, 0, 2), lo, hi)
    requires InGrid(c) && InLocal(t, LocalCell(t, pose, c))
    ensures InBox(PaddedBox(lo, hi), c)
  {
    var l := LocalDelta(pose, c);
    var d := Vec3(c.x as real + 0.5 - pose.px, c.y as real + 0.5 - pose.py, c.z as real + 0.5 - pose.pz);
    RotationsInvert(pose, d);
    hide QuatRotate, QuatRotateInv, Unit, Spans;
    InsideLocalBox(t, pose, c);
    BetweenCorners(t, pose, l, lo, hi);
    var r := QuatRotate(pose, l);
    assert r == d;
    hide *;
    PaddedAxis(lo.x, hi.x, c.x);
    PaddedAxis(lo.y, hi.y, c.y);
    PaddedAxis(lo.z, hi.z, c.z);
    PaddedBoxHas(lo, hi, c);
  }

  lemma InsideLocalBox(t: DebrisChunk, pose: Pose, c: Cell)
    requires ChunkShape(t) && InLocal(t, LocalCell(t, pose, c))
    ensures var l := LocalDelta(pose, c);
      -t.localC.x <= l.x <= t.localC.x && -t.localC.y <= l.y <= t.localC.y && -t.localC.z <= l.z <= t.localC.z
  {
    hide LocalDelta;
  }

  lemma PaddedAxis(lo: real, hi: real, v: int)
    requires lo <= v as real + 0.5 <= hi && 0 <= v < WORLD_DIM
    ensures LowSide(lo) <= v < HighSide(hi)
  {
  }

  lemma PaddedBoxHas(lo: Vec3, hi: Vec3, c: Cell)
    requires LowSide(lo.x) <= c.x < HighSide(hi.x)
    requires LowSide(lo.y) <= c.y < HighSide(hi.y)
    requires LowSide(lo.z) <= c.z < HighSide(hi.z)
    ensures InBox(PaddedBox(lo, hi), c)
  {
  }

  // Axis-aligned box of the rotated chunk, clamped to the grid.
  method WorldAabb(t: DebrisChunk, pose: Pose) returns (a: Box)
    requires ChunkShape(t) && Unit(pose)
    ensures BoxInGrid(a) && TightBox(t, pose, a)
    ensures forall c :: InGrid(c) && InLocal(t, LocalCell(t, pose, c)) ==> InBox(a, c)
  {
    hide Spans, Corner, LocalCell;
    var lo, hi := Vec3(FAR, FAR, FAR), Vec3(-FAR, -FAR, -FAR);
    SpansNone(t, pose);
    for i := 0 to 2
      invariant Spans(t, pose, Cell(0, 0, i), lo, hi)
    {
      for j := 0 to 2
        invariant Spans(t, pose, Cell(0, j, i), lo, hi)
      {
        for k := 0 to 2
          invariant Spans(t, pose, Cell(k, j, i), lo, hi)
        {
          var w := Corner(t, pose, Cell(k, j, i));
          SpansStep(t, pose, Cell(k, j, i), lo, hi);
          lo := Vec3(MinR(lo.x, w.x), MinR(lo.y, w.y), MinR(lo.z, w.z));
          hi := Vec3(MaxR(hi.x, w.x), MaxR(hi.y, w.y), MaxR(hi.z, w.z));
        }
        SpansWrap(t, pose, j, i, lo, hi);
      }
      SpansWrap(t, pose, 0, i, lo, hi);
    }
    a := PaddedBox(lo, hi);
    SpansTight(t, pose, lo, hi);
    forall c | InGrid(c) && InLocal(t, LocalCell(t, pose, c))
      ensures InBox(a, c)
    {
      BoxIsConservative(t, pose, lo, hi, c);
    }
  }

  lemma SpansNone(t: DebrisChunk, pose: Pose)
    ensures Spans(t, pose, Cell(0, 0, 0), Vec3(FAR, FAR, FAR), Vec3(-FAR, -FAR, -FAR))
  {
  }

  lemma SidesMonotone(v: real, w: real)
    requires v <= w
    ensures LowSide(v) <= LowSide(w) && HighSide(v) <= HighSide(w)
  {
  }

  // A bound that is a corner's coordinate, or so far out that every corner clamps alike.
  lemma AxisAttained(t: DebrisChunk, pose: Pose, lo: Vec3, hi: Vec3)
    requires Spans(t, pose, Cell(0, 0, 2), lo, hi)
    ensures exists s :: InCube(2, s) && LowSide(Corner(t, pose, s).x) == LowSide(lo.x)
    ensures exists s :: InCube(2, s) && LowSide(Corner(t, pose, s).y) == LowSide(lo.y)
    ensures exists s :: InCube(2, s) && LowSide(Corner(t, pose, s).z) == LowSide(lo.z)
    ensures exists s :: InCube(2, s) && HighSide(Corner(t, pose, s).x) == HighSide(hi.x)
    ensures exists s :: InCube(2, s) && HighSide(Corner(t, pose, s).y) == HighSide(hi.y)
    ensures exists s :: InCube(2, s) && HighSide(Corner(t, pose, s).z) == HighSide(hi.z)
  {
    hide Corner;
    var first := Cell(0, 0, 0);
    var w := Corner(t, pose, first);
    assert InCube(2, first) && Precedes(first, Cell(0, 0, 2));
    SidesFar(lo.x, w.x, hi.x);
    SidesFar(lo.y, w.y, hi.y);
    SidesFar(lo.z, w.z, hi.z);
    hide LowSide, HighSide;
  }

  lemma SidesFar(lo: real, w: real, hi: real)
    requires lo <= w <= hi
    ensures lo == FAR ==> LowSide(w) == LowSide(lo)
    ensures hi == -FAR ==> HighSide(w) == HighSide(hi)
  {
  }

  lemma SpansTight(t: DebrisChunk, pose: Pose, lo: Vec3, hi: Vec3)
    requires Spans(t, pose, Cell(0, 0, 2), lo, hi)
    ensures TightBox(t, pose, PaddedBox(lo, hi))
  {
    hide Corner;
    AxisAttained(t, pose, lo, hi);
    forall s | InCube(2, s)
      ensures var w := Corner(t, pose, s); var a := PaddedBox(lo, hi);
        && a.x0 <= LowSide(w.x) && a.y0 <= LowSide(w.y) && a.z0 <= LowSide(w.z)
        && HighSide(w.x) <= a.x1 && HighSide(w.y) <= a.y1 && HighSide(w.z) <= a.z1
    {
      var w := Corner(t, pose, s);
      assert Precedes(s, Cell(0, 0, 2));
      SidesMonotone(lo.x, w.x);
      SidesMonotone(lo.y, w.y);
      SidesMonotone(lo.z, w.z);
      SidesMonotone(w.x, hi.x);
      SidesMonotone(w.y, hi.y);
      SidesMonotone(w.z, hi.z);
      hide LowSide, HighSide;
    }
  }
}
