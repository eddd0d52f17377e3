// The cell-by-cell march of a ray: which cell holds it at which time.
module Rays {
  import opened Grid
  import opened Terrain
  import opened Vectors

  // When a ray meets the next boundary of an axis; a ray parallel to it never does.
  datatype Time = Finite(at: real) | Never

  predicate NotAfter(a: Time, b: Time) {
    b.Never? || (a.Finite? && a.at <= b.at)
  }

  function Sign(d: real): int {
    if d > 0.0 then 1 else if d < 0.0 then -1 else 0
  }

  // Coordinate of the ray at time s.
  function Along(o: real, d: real, s: real): real {
    o + Mul(s, d)
  }

  // ------------------------------------------------------------------------------------------
  // One axis
  // ------------------------------------------------------------------------------------------

  // At time t the ray is between v and v + 1, which it leaves at `next`.
  ghost predicate AxisHolds(o: real, d: real, v: int, next: Time, t: real) {
    && v as real <= Along(o, d, t) <= v as real + 1.0
    && if d == 0.0 then next == Never
       else next.Finite? && t <= next.at && Along(o, d, next.at) == (if d > 0.0 then v + 1 else v) as real
  }

  lemma AlongMonotone(o: real, d: real, s: real, t: real)
    requires s <= t
    ensures d >= 0.0 ==> Along(o, d, s) <= Along(o, d, t)
    ensures d <= 0.0 ==> Along(o, d, t) <= Along(o, d, s)
  {
    if d >= 0.0 {
      assert (t - s) * d >= 0.0;
    }
    if d <= 0.0 {
      assert (t - s) * d <= 0.0;
    }
  }

  lemma AxisWaits(o: real, d: real, v: int, next: Time, t: real, s: real)
    requires AxisHolds(o, d, v, next, t) && t <= s && NotAfter(Finite(s), next)
    ensures AxisHolds(o, d, v, next, s)
  {
    AlongMonotone(o, d, t, s);
    if d != 0.0 {
      AlongMonotone(o, d, s, next.at);
    }
    hide Along;
  }

  lemma Reciprocal(d: real)
    requires d != 0.0
    ensures Mul(1.0 / d, d) == 1.0
    ensures d > 0.0 ==> 1.0 / d > 0.0
    ensures d < 0.0 ==> 1.0 / d < 0.0
  {
  }

  lemma AlongAdd(o: real, d: real, s: real, t: real)
    ensures Along(o, d, s + t) == Along(o, d, s) + Mul(t, d)
  {
  }

  lemma AxisSteps(o: real, d: real, v: int, next: Time)
    requires d != 0.0 && next.Finite? && AxisHolds(o, d, v, next, next.at)
    ensures AxisHolds(o, d, v + Sign(d), Finite(next.at + AbsR(1.0 / d)), next.at)
  {
    Reciprocal(d);
    var r := 1.0 / d;
    AlongAdd(o, d, next.at, AbsR(r));
    assert Mul(-r, d) == -Mul(r, d);
    hide Along, Mul;
  }

  // Distance along the ray to the next boundary in the direction of travel.
  function FirstBoundary(o: real, v: int, d: real): Time {
    if d == 0.0 then Never
    else
      var invAbs := AbsR(1.0 / d);
      var next := if d > 0.0 then v as real + 1.0 else v as real;
      Finite(Mul(next - o, if d > 0.0 then invAbs else -invAbs))
  }

  lemma AxisStarts(o: real, d: real)
    ensures AxisHolds(o, d, o.Floor, FirstBoundary(o, o.Floor, d), 0.0)
  {
    assert Along(o, d, 0.0) == o;
    if d != 0.0 {
      Reciprocal(d);
      var r := 1.0 / d;
      var next := if d > 0.0 then o.Floor as real + 1.0 else o.Floor as real;
      BackAgain(next - o, r, d);
      SameSign(next - o, r);
    }
  }

  lemma BackAgain(a: real, r: real, d: real)
    requires Mul(r, d) == 1.0
    ensures Mul(Mul(a, r), d) == a
  {
    assert a * r * d == a * (r * d);
  }

  lemma SameSign(a: real, r: real)
    requires (a >= 0.0 && r >= 0.0) || (a <= 0.0 && r <= 0.0)
    ensures Mul(a, r) >= 0.0
  {
  }

  // v lies in the direction of d from w, or is w itself.
  predicate OnWay(w: int, d: real, v: int) {
    if d > 0.0 then w <= v else if d < 0.0 then v <= w else v == w
  }

  // A later position is further along.
  lemma AxisBeyond(o: real, d: real, v: int, t: real, c: int, s: real)
    requires v as real <= Along(o, d, t) <= v as real + 1.0 && t <= s
    requires c as real < Along(o, d, s) < c as real + 1.0
    ensures OnWay(v, d, c)
  {
    AlongMonotone(o, d, t, s);
    hide Along;
  }

  // ------------------------------------------------------------------------------------------
  // Three axes
  // ------------------------------------------------------------------------------------------

  // The ray is in the open interior of cell c at time s.
  ghost predicate Inside(o: Vec3, d: Vec3, c: Cell, s: real) {
    && c.x as real < Along(o.x, d.x, s) < c.x as real + 1.0
    && c.y as real < Along(o.y, d.y, s) < c.y as real + 1.0
    && c.z as real < Along(o.z, d.z, s) < c.z as real + 1.0
  }

  // ... or at least in the closed cell.
  ghost predicate Meets(o: Vec3, d: Vec3, c: Cell, s: real) {
    && c.x as real <= Along(o.x, d.x, s) <= c.x as real + 1.0
    && c.y as real <= Along(o.y, d.y, s) <= c.y as real + 1.0
    && c.z as real <= Along(o.z, d.z, s) <= c.z as real + 1.0
  }

  // While the ray is in one closed cell it is inside no other cell.
  lemma InsideOneCell(o: Vec3, d: Vec3, c: Cell, e: Cell, s: real)
    requires Meets(o, d, c, s) && Inside(o, d, e, s)
    ensures e == c
  {
    hide Along;
  }

  function StartCell(o: Vec3): Cell {
    Cell(o.x.Floor, o.y.Floor, o.z.Floor)
  }

  // State of the march: the current cell, when it was entered, and when each axis leaves it.
  datatype March = March(cell: Cell, x: Time, y: Time, z: Time, t: real)

  function StartMarch(o: Vec3, d: Vec3): March {
    var c := StartCell(o);
    March(c, FirstBoundary(o.x, c.x, d.x), FirstBoundary(o.y, c.y, d.y), FirstBoundary(o.z, c.z, d.z), 0.0)
  }

  function Later(next: Time, d: real): Time {
    if next.Finite? && d != 0.0 then Finite(next.at + AbsR(1.0 / d)) else Never
  }

  function TimeOf(next: Time, fallback: real): real {
    if next.Finite? then next.at else fallback
  }

  // On to the nearest boundary.
  function Advanced(w: March, d: Vec3): March {
    if NotAfter(w.x, w.y) && NotAfter(w.x, w.z) then
      w.(cell := w.cell.(x := w.cell.x + Sign(d.x)), t := TimeOf(w.x, w.t), x := Later(w.x, d.x))
    else if NotAfter(w.y, w.z) then
      w.(cell := w.cell.(y := w.cell.y + Sign(d.y)), t := TimeOf(w.y, w.t), y := Later(w.y, d.y))
    else
      w.(cell := w.cell.(z := w.cell.z + Sign(d.z)), t := TimeOf(w.z, w.t), z := Later(w.z, d.z))
  }

  ghost predicate OnCourse(o: Vec3, d: Vec3, w: March) {
    && w.t >= 0.0
    && AxisHolds(o.x, d.x, w.cell.x, w.x, w.t)
    && AxisHolds(o.y, d.y, w.cell.y, w.y, w.t)
    && AxisHolds(o.z, d.z, w.cell.z, w.z, w.t)
  }

  predicate Moving(d: Vec3) {
    d.x != 0.0 || d.y != 0.0 || d.z != 0.0
  }

  lemma StartHolds(o: Vec3, d: Vec3)
    ensures OnCourse(o, d, StartMarch(o, d))
  {
    AxisStarts(o.x, d.x);
    AxisStarts(o.y, d.y);
    AxisStarts(o.z, d.z);
    hide AxisHolds, FirstBoundary;
  }

  // Until the march advances, the ray stays in the closed cell.
  lemma StaysInCell(o: Vec3, d: Vec3, w: March, s: real)
    requires OnCourse(o, d, w) && Moving(d) && w.t <= s <= Advanced(w, d).t
    ensures Meets(o, d, w.cell, s)
    ensures AxisHolds(o.x, d.x, w.cell.x, w.x, s) && AxisHolds(o.y, d.y, w.cell.y, w.y, s)
    ensures AxisHolds(o.z, d.z, w.cell.z, w.z, s)
  {
    hide Along;
    AxisWaits(o.x, d.x, w.cell.x, w.x, w.t, s);
    AxisWaits(o.y, d.y, w.cell.y, w.y, w.t, s);
    AxisWaits(o.z, d.z, w.cell.z, w.z, w.t, s);
  }

  lemma AdvanceHolds(o: Vec3, d: Vec3, w: March)
    requires OnCourse(o, d, w) && Moving(d)
    ensures OnCourse(o, d, Advanced(w, d)) && w.t <= Advanced(w, d).t
  {
    var t := Advanced(w, d).t;
    hide Along;
    assert w.t <= t;
    StaysInCell(o, d, w, t);
    if NotAfter(w.x, w.y) && NotAfter(w.x, w.z) {
      AxisSteps(o.x, d.x, w.cell.x, w.x);
    } else if NotAfter(w.y, w.z) {
      AxisSteps(o.y, d.y, w.cell.y, w.y);
    } else {
      AxisSteps(o.z, d.z, w.cell.z, w.z);
    }
  }

  // No solid grid cell is entered up to time t.
  ghost predicate ClearTo(m: Voxels, o: Vec3, d: Vec3, t: real) {
    forall c, s :: Inside(o, d, c, s) && InGrid(c) && 0.0 <= s <= t ==> c !in m
  }

  lemma ClearStep(m: Voxels, o: Vec3, d: Vec3, w: March)
    requires OnCourse(o, d, w) && Moving(d) && ClearTo(m, o, d, w.t) && !(InGrid(w.cell) && w.cell in m)
    ensures ClearTo(m, o, d, Advanced(w, d).t)
  {
    hide OnCourse, Inside, Meets, Advanced, AxisHolds;
    forall c, s | Inside(o, d, c, s) && InGrid(c) && 0.0 <= s <= Advanced(w, d).t
      ensures c !in m
    {
      if s > w.t {
        StaysInCell(o, d, w, s);
        InsideOneCell(o, d, w.cell, c, s);
      }
    }
  }

  // ------------------------------------------------------------------------------------------
  // How far the march has come
  // ------------------------------------------------------------------------------------------

  function Manhattan(a: Cell, b: Cell): nat {
    Max(a.x - b.x, b.x - a.x) + Max(a.y - b.y, b.y - a.y) + Max(a.z - b.z, b.z - a.z)
  }

  predicate AllOnWay(a: Cell, d: Vec3, c: Cell) {
    OnWay(a.x, d.x, c.x) && OnWay(a.y, d.y, c.y) && OnWay(a.z, d.z, c.z)
  }

  // Each advance moves one cell, never back.
  lemma AdvanceMoves(o: Vec3, d: Vec3, w: March, start: Cell)
    requires OnCourse(o, d, w) && Moving(d) && AllOnWay(start, d, w.cell)
    ensures AllOnWay(start, d, Advanced(w, d).cell)
    ensures Manhattan(Advanced(w, d).cell, start) == Manhattan(w.cell, start) + 1
    ensures Manhattan(Advanced(w, d).cell, w.cell) == 1
  {
    hide Along;
  }

  lemma LaterIsFurther(o: Vec3, d: Vec3, w: March, start: Cell, c: Cell, s: real)
    requires OnCourse(o, d, w) && AllOnWay(start, d, w.cell) && Inside(o, d, c, s) && w.t <= s
    ensures AllOnWay(w.cell, d, c) && Manhattan(c, start) == Manhattan(c, w.cell) + Manhattan(w.cell, start)
  {
    AxisBeyond(o.x, d.x, w.cell.x, w.t, c.x, s);
    AxisBeyond(o.y, d.y, w.cell.y, w.t, c.y, s);
    AxisBeyond(o.z, d.z, w.cell.z, w.t, c.z, s);
    hide Along;
  }

  // The march has left the grid for good on some axis.
  predicate PastAxis(d: real, v: int) {
    (d > 0.0 && v >= WORLD_DIM) || (d < 0.0 && v < 0)
  }

  predicate PastGrid(d: Vec3, c: Cell) {
    PastAxis(d.x, c.x) || PastAxis(d.y, c.y) || PastAxis(d.z, c.z)
  }

  lemma PastMeetsNothing(o: Vec3, d: Vec3, w: March, c: Cell, s: real)
    requires OnCourse(o, d, w) && PastGrid(d, w.cell) && Inside(o, d, c, s) && w.t <= s
    ensures !InGrid(c)
  {
    AxisBeyond(o.x, d.x, w.cell.x, w.t, c.x, s);
    AxisBeyond(o.y, d.y, w.cell.y, w.t, c.y, s);
    AxisBeyond(o.z, d.z, w.cell.z, w.t, c.z, s);
    hide Along;
  }

  // ------------------------------------------------------------------------------------------
  // What the cast promises
  // ------------------------------------------------------------------------------------------

  const MAX_STEPS: nat := 3 * WORLD_DIM + 3

  // A solid grid cell, met in range, with nothing solid entered before; at most the step cap away.
  ghost predicate FirstHit(m: Voxels, o: Vec3, d: Vec3, maxDist: real, hit: Cell) {
    && InGrid(hit) && hit in m && Manhattan(hit, StartCell(o)) <= 387
    && exists t :: 0.0 <= t && (t == 0.0 || t <= maxDist) && Meets(o, d, hit, t) && ClearBefore(m, o, d, hit, t)
  }

  ghost predicate ClearBefore(m: Voxels, o: Vec3, d: Vec3, hit: Cell, t: real) {
    forall c, s :: Inside(o, d, c, s) && InGrid(c) && 0.0 <= s <= t && c != hit ==> c !in m
  }

  // Whatever solid the ray enters in range is further away than the step cap.
  ghost predicate Missed(m: Voxels, o: Vec3, d: Vec3, maxDist: real) {
    forall c, s :: Inside(o, d, c, s) && InGrid(c) && 0.0 <= s <= maxDist && c in m ==>
      Manhattan(c, StartCell(o)) > 387
  }

  // The march after k advances, nothing solid having been found.
  ghost predicate Searching(m: Voxels, o: Vec3, d: Vec3, w: March, k: nat) {
    && OnCourse(o, d, w) && ClearTo(m, o, d, w.t) && !(InGrid(w.cell) && w.cell in m)
    && AllOnWay(StartCell(o), d, w.cell) && Manhattan(w.cell, StartCell(o)) == k
  }

  lemma SearchStarts(m: Voxels, o: Vec3, d: Vec3)
    ensures var c := StartCell(o);
      if InGrid(c) && c in m then forall maxDist :: FirstHit(m, o, d, maxDist, c)
      else Searching(m, o, d, StartMarch(o, d), 0)
  {
    var c, w := StartCell(o), StartMarch(o, d);
    StartHolds(o, d);
    hide AxisHolds, Along;
    assert Meets(o, d, c, 0.0) by { StartMeets(o, d, w); }
    forall e, s | Inside(o, d, e, s) && InGrid(e) && 0.0 <= s <= 0.0
      ensures e == c
    {
      InsideOneCell(o, d, c, e, 0.0);
    }
    assert InGrid(c) && c in m ==> ClearBefore(m, o, d, c, 0.0);
  }

  lemma StartMeets(o: Vec3, d: Vec3, w: March)
    requires OnCourse(o, d, w) && w == StartMarch(o, d)
    ensures Meets(o, d, StartCell(o), 0.0)
  {
  }

  // One advance: a hit, or the search goes on.
  lemma SearchStep(m: Voxels, o: Vec3, d: Vec3, w: March, k: nat, maxDist: real)
    requires Searching(m, o, d, w, k) && Moving(d) && k < MAX_STEPS
    ensures var w' := Advanced(w, d);
      && w.t <= w'.t && (w'.t > maxDist ==> Missed(m, o, d, maxDist))
      && (InGrid(w'.cell) && w'.cell in m && w'.t <= maxDist ==> FirstHit(m, o, d, maxDist, w'.cell))
      && (!(InGrid(w'.cell) && w'.cell in m) ==> Searching(m, o, d, w', k + 1))
  {
    var w' := Advanced(w, d);
    AdvanceHolds(o, d, w);
    AdvanceMoves(o, d, w, StartCell(o));
    ClearStep(m, o, d, w);
    hide Advanced, AxisHolds, Along, Inside, Manhattan;
    assert Meets(o, d, w'.cell, w'.t) by { HoldsMeets(o, d, w'); }
    assert ClearBefore(m, o, d, w'.cell, w'.t);
  }

  lemma HoldsMeets(o: Vec3, d: Vec3, w: March)
    requires OnCourse(o, d, w)
    ensures Meets(o, d, w.cell, w.t)
  {
  }

  lemma SearchLeaves(m: Voxels, o: Vec3, d: Vec3, w: March, k: nat, maxDist: real)
    requires Searching(m, o, d, w, k) && PastGrid(d, w.cell)
    ensures Missed(m, o, d, maxDist)
  {
    hide OnCourse, Inside, Along, PastGrid;
    forall c, s | Inside(o, d, c, s) && InGrid(c) && 0.0 <= s <= maxDist
      ensures c !in m
    {
      if s > w.t {
        PastMeetsNothing(o, d, w, c, s);
      }
    }
  }

  // When the cap ends the march, what is left lies beyond it.
  lemma SearchGivesUp(m: Voxels, o: Vec3, d: Vec3, w: March, maxDist: real)
    requires Searching(m, o, d, w, MAX_STEPS)
    ensures Missed(m, o, d, maxDist)
  {
    hide OnCourse, Inside, Along;
    forall c, s | Inside(o, d, c, s) && InGrid(c) && 0.0 <= s <= maxDist && c in m
      ensures Manhattan(c, StartCell(o)) > MAX_STEPS
    {
      if s > w.t {
        LaterIsFurther(o, d, w, StartCell(o), c, s);
      }
    }
  }

  // From inside the grid every grid cell is within the cap.
  lemma MissedInside(m: Voxels, o: Vec3, d: Vec3, maxDist: real)
    requires Missed(m, o, d, maxDist)
    ensures InGrid(StartCell(o)) ==> ClearTo(m, o, d, maxDist)
  {
    hide Inside;
  }

  // ... and a march that started inside either is inside or is past the grid.
  lemma StartedInside(m: Voxels, o: Vec3, d: Vec3, w: March, k: nat)
    requires Searching(m, o, d, w, k) && InGrid(StartCell(o)) && (InGrid(w.cell) || !PastGrid(d, w.cell))
    ensures InGrid(w.cell) && k < MAX_STEPS
  {
    hide OnCourse, ClearTo;
  }

  const TINY: real := 1.0e-12

  function Scaled(dir: Vec3, len: real): Vec3
    requires len > 0.0
  {
    Vec3(dir.x / len, dir.y / len, dir.z / len)
  }

  // The direction is kept and normalised, so some axis moves.
  lemma ScaledIsUnit(dir: Vec3, len: real)
    requires len > 0.0 && len * len == Dot(dir, dir)
    ensures Dot(Scaled(dir, len), Scaled(dir, len)) == 1.0 && Moving(Scaled(dir, len))
    ensures var d := Scaled(dir, len); Vec3(len * d.x, len * d.y, len * d.z) == dir
  {
    var r := 1.0 / len;
    Reciprocal(len);
    assert dir.x / len == dir.x * r && dir.y / len == dir.y * r && dir.z / len == dir.z * r;
    ScaleDot(dir, r);
    assert Mul(Mul(r, r), len * len) == Mul(Mul(r, len), Mul(r, len));
  }

  lemma ScaleDot(v: Vec3, r: real)
    ensures var u := Vec3(v.x * r, v.y * r, v.z * r); Dot(u, u) == Mul(Mul(r, r), Dot(v, v))
  {
  }

  // Nothing solid in the grid lies anywhere ahead.
  ghost predicate NothingAhead(m: Voxels, o: Vec3, dir: Vec3) {
    forall c, s :: Inside(o, dir, c, s) && InGrid(c) && 0.0 <= s ==> c !in m
  }

  // No two points of the grid are 256 apart.
  lemma GridIsNear(o: Vec3, d: Vec3, c: Cell, s: real)
    requires Dot(d, d) == 1.0 && InGrid(StartCell(o)) && InGrid(c) && Inside(o, d, c, s) && s >= 0.0
    ensures s <= 256.0
  {
    var x, y, z := Mul(d.x, s), Mul(d.y, s), Mul(d.z, s);
    LessThanSide(x);
    LessThanSide(y);
    LessThanSide(z);
    ScaleDot(d, s);
    assert Mul(x, x) + Mul(y, y) + Mul(z, z) == Mul(s, s);
    if s > 256.0 {
      LongerSquare(s);
    }
  }

  lemma LessThanSide(x: real)
    requires -128.0 <= x <= 128.0
    ensures Mul(x, x) <= 16384.0
  {
    var y := AbsR(x);
    assert Mul(x, x) == y * y;
    assert y * y <= 128.0 * y;
  }

  lemma LongerSquare(s: real)
    requires s > 256.0
    ensures Mul(s, s) > 65536.0
  {
    assert s * s > 256.0 * s;
  }

  // So a cast that is clear over 256 units from inside the grid is clear for good.
  lemma ClearForGood(m: Voxels, o: Vec3, dir: Vec3, len: real)
    requires len > 0.0 && len * len == Dot(dir, dir) && InGrid(StartCell(o)) && ClearTo(m, o, Scaled(dir, len), 256.0)
    ensures NothingAhead(m, o, dir)
  {
    hide Mul, Scaled, Inside;
    var d := Scaled(dir, len);
    ScaledIsUnit(dir, len);
    forall c, s | Inside(o, dir, c, s) && InGrid(c) && 0.0 <= s
      ensures c !in m
    {
      InsideRescaled(o, dir, len, c, s);
      GridIsNear(o, d, c, Mul(s, len));
    }
  }

  lemma InsideRescaled(o: Vec3, dir: Vec3, len: real, c: Cell, s: real)
    requires len > 0.0 && len * len == Dot(dir, dir) && Inside(o, dir, c, s) && s >= 0.0
    ensures Mul(s, len) >= 0.0 && Inside(o, Scaled(dir, len), c, Mul(s, len))
  {
    var d := Scaled(dir, len);
    ScaledIsUnit(dir, len);
    Rescaled(s, len, d.x, dir.x);
    Rescaled(s, len, d.y, dir.y);
    Rescaled(s, len, d.z, dir.z);
    hide Mul, Scaled, Dot;
  }

  lemma Rescaled(s: real, len: real, v: real, w: real)
    requires len > 0.0 && s >= 0.0 && w == len * v
    ensures Mul(s, w) == Mul(Mul(s, len), v) && Mul(s, len) >= 0.0
  {
  }

  // ------------------------------------------------------------------------------------------
  // The cap does bite for far origins: a voxel entered after 243 of the 256 units a break looks
  // ahead, but 405 cells away
  // ------------------------------------------------------------------------------------------

  const FAR_ORIGIN := Vec3(-160.5, -160.5, -79.5)
  const FAR_DIR := Vec3(2.0, 2.0, 1.0)
  const FAR_TARGET := Cell(1, 1, 1)

  lemma CapCanBite()
    ensures Dot(FAR_DIR, FAR_DIR) == 3.0 * 3.0
    ensures InGrid(FAR_TARGET) && Inside(FAR_ORIGIN, Scaled(FAR_DIR, 3.0), FAR_TARGET, 243.0) && 243.0 <= 256.0
    ensures Manhattan(FAR_TARGET, StartCell(FAR_ORIGIN)) > MAX_STEPS
  {
    assert StartCell(FAR_ORIGIN) == Cell(-161, -161, -80);
    assert Scaled(FAR_DIR, 3.0) == Vec3(2.0 / 3.0, 2.0 / 3.0, 1.0 / 3.0);
  }
}
