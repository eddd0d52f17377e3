// Where a traced ray enters the grid's box, and the face it reports there.
module RayEntry {
  import opened Grid
  import opened Vectors
  import opened Rays
  import opened Bricks
  import opened SkipTrace
  import opened SkipLimits

  // The ray is in the closed box of the grid, on one axis and on all of them.
  predicate AxisInBox(p: real, d: real, s: real) {
    0.0 <= Along(p, d, s) <= 128.0
  }

  predicate InBoxAt(ro: Vec3, rd: Vec3, s: real) {
    AxisInBox(ro.x, rd.x, s) && AxisInBox(ro.y, rd.y, s) && AxisInBox(ro.z, rd.z, s)
  }

  // The box is met first at time t, which is later than the start.
  ghost predicate FirstInBox(ro: Vec3, rd: Vec3, t: real) {
    t > 0.0 && InBoxAt(ro, rd, t) && forall s :: 0.0 <= s < t ==> !InBoxAt(ro, rd, s)
  }

  // The ray is in the side of the box that it comes in through on this axis.
  predicate InSide(p: real, d: real, t: real) {
    Along(p, d, t) == if d > 0.0 then 0.0 else 128.0
  }

  // The normal is that of the side the ray is in, against the ray; at an edge of the box the
  // earlier axis counts.
  predicate SideNormal(ro: Vec3, rd: Vec3, t: real, n: Cell) {
    if InSide(ro.x, rd.x, t) then n == Cell(if rd.x > 0.0 then -1 else 1, 0, 0)
    else if InSide(ro.y, rd.y, t) then n == Cell(0, if rd.y > 0.0 then -1 else 1, 0)
    else InSide(ro.z, rd.z, t) && n == Cell(0, 0, if rd.z > 0.0 then -1 else 1)
  }

  function PointOn(ro: Vec3, rd: Vec3, t: real): Vec3 {
    Vec3(Along(ro.x, rd.x, t), Along(ro.y, rd.y, t), Along(ro.z, rd.z, t))
  }

  // A traced ray misses the box altogether, starts in it, or enters it from outside.
  ghost predicate EntersBox(ro: Vec3, rd: Vec3, entry: Option<Ray>) {
    match entry
    case None => forall s :: s >= 0.0 ==> !InBoxAt(ro, rd, s)
    case Some(r) =>
      && r.d == rd
      && if InBoxAt(ro, rd, 0.0) then r.p == PointOn(ro, rd, 0.001) && r.face == Cell(0, 1, 0)
         else exists t :: FirstInBox(ro, rd, t) && r.p == PointOn(ro, rd, t + 0.001) && SideNormal(ro, rd, t, r.face)
  }

  lemma AxisTimes(p: real, d: real, s: real)
    requires d != 0.0
    ensures var t0, t1 := (0.0 - p) / d, (128.0 - p) / d;
      && (AxisInBox(p, d, s) <==> MinR(t0, t1) <= s <= MaxR(t0, t1))
      && (InSide(p, d, s) <==> s == MinR(t0, t1))
  {
    TimeAgainst(p, d, 0.0, s);
    TimeAgainst(p, d, 128.0, s);
    Quotients(0.0 - p, 128.0 - p, d);
    hide Along;
  }

  lemma BoxTimes(ro: Vec3, rd: Vec3, s: real)
    requires NonZero(rd)
    ensures var ts, te := BoxEnters(ro, rd), BoxLeaves(ro, rd);
      && (InBoxAt(ro, rd, s) <==> Largest(ts) <= s <= Smallest(te))
      && (InSide(ro.x, rd.x, s) <==> s == ts.x) && (InSide(ro.y, rd.y, s) <==> s == ts.y)
      && (InSide(ro.z, rd.z, s) <==> s == ts.z)
  {
    AxisTimes(ro.x, rd.x, s);
    AxisTimes(ro.y, rd.y, s);
    AxisTimes(ro.z, rd.z, s);
    hide AxisInBox, InSide, MinR, MaxR;
  }

  // That is what the entry computes.
  lemma EntryEntersBox(ro: Vec3, rd: Vec3)
    requires NonZero(rd)
    ensures EntersBox(ro, rd, Entry(ro, rd))
  {
    var ts, te := BoxEnters(ro, rd), BoxLeaves(ro, rd);
    BoxTimes(ro, rd, 0.0);
    BoxTimes(ro, rd, Largest(ts));
    hide BoxEnters, BoxLeaves, InBoxAt, InSide, Along;
    forall s | s >= 0.0
      ensures InBoxAt(ro, rd, s) <==> Largest(ts) <= s <= Smallest(te)
    {
      BoxTimes(ro, rd, s);
    }
    if Entry(ro, rd).Some? && !InBoxAt(ro, rd, 0.0) {
      assert FirstInBox(ro, rd, Largest(ts));
    }
  }

  // There is only one such answer, so the entry is determined.
  lemma EntryIsDetermined(ro: Vec3, rd: Vec3, a: Option<Ray>, b: Option<Ray>)
    requires EntersBox(ro, rd, a) && EntersBox(ro, rd, b)
    ensures a == b
  {
    hide InBoxAt, InSide, PointOn;
    if a.Some? && b.Some? && !InBoxAt(ro, rd, 0.0) {
      var t :| FirstInBox(ro, rd, t) && a.value.p == PointOn(ro, rd, t + 0.001) && SideNormal(ro, rd, t, a.value.face);
      var u :| FirstInBox(ro, rd, u) && b.value.p == PointOn(ro, rd, u + 0.001) && SideNormal(ro, rd, u, b.value.face);
      assert t == u;
    } else if a.Some? && b.None? {
      BoxIsMet(ro, rd, a.value);
    } else if b.Some? && a.None? {
      BoxIsMet(ro, rd, b.value);
    }
  }

  lemma BoxIsMet(ro: Vec3, rd: Vec3, r: Ray)
    requires EntersBox(ro, rd, Some(r))
    ensures exists s :: s >= 0.0 && InBoxAt(ro, rd, s)
  {
    hide InBoxAt;
  }

  // ------------------------------------------------------------------------------------------
  // Hits in the first cell
  // ------------------------------------------------------------------------------------------

  // Just inside the side that it came in through, the ray is in the outermost slab of the grid,
  // and entered it a moment ago.
  lemma AxisEntered(p: real, d: real, t: real)
    requires d != 0.0 && AbsR(d) <= 1.0 && InSide(p, d, t)
    ensures var q := Along(p, d, t + ENTRY_NUDGE); EnterAt(q, d, q.Floor) == -ENTRY_NUDGE
  {
    var q := Along(p, d, t + ENTRY_NUDGE);
    AlongAdd(p, d, t, ENTRY_NUDGE);
    EntryStep(d);
    QuotientOf(ENTRY_NUDGE, d);
    hide Along, Mul;
    if d > 0.0 {
      assert q.Floor == 0;
    } else {
      assert q.Floor == 127;
    }
  }

  lemma EntryStep(d: real)
    requires d != 0.0 && AbsR(d) <= 1.0
    ensures if d > 0.0 then 0.0 < Mul(ENTRY_NUDGE, d) < 1.0 else -1.0 < Mul(ENTRY_NUDGE, d) < 0.0
  {
  }

  lemma QuotientOf(k: real, d: real)
    requires d != 0.0
    ensures -Mul(k, d) / d == -k
  {
  }

  // From outside, the reported face of the first cell is the one the ray came in through.
  lemma FirstCellFace(ro: Vec3, rd: Vec3, r: Ray)
    requires NonZero(rd) && Entry(ro, rd) == Some(r) && Gentle(r) && !InBoxAt(ro, rd, 0.0)
    ensures OnFace(r, StartCell(r.p), -ENTRY_NUDGE, r.face)
  {
    EntryEntersBox(ro, rd);
    hide InBoxAt, InSide, Along, EnterAt, Entry, FirstInBox;
    var t :| FirstInBox(ro, rd, t) && r.p == PointOn(ro, rd, t + 0.001) && SideNormal(ro, rd, t, r.face);
    if InSide(ro.x, rd.x, t) {
      AxisEntered(ro.x, rd.x, t);
    } else if InSide(ro.y, rd.y, t) {
      AxisEntered(ro.y, rd.y, t);
    } else {
      AxisEntered(ro.z, rd.z, t);
    }
  }

  ghost predicate FaceIsRight(v: seq<Word>, ro: Vec3, rd: Vec3, r: Ray, h: Hit)
    requires VoxelSized(v) && Slanted(r)
  {
    if !SolidAt(v, StartCell(r.p)) then OnFace(r, h.cell, h.tEnter, h.nrm)
    else
      && h.cell == StartCell(r.p) && h.tEnter == 0.0
      && if InBoxAt(ro, rd, 0.0) then h.nrm == Cell(0, 1, 0) else OnFace(r, h.cell, -ENTRY_NUDGE, h.nrm)
  }

  // The face of every hit: that of the cell entered, or in the first cell the one the ray came
  // into the grid through - for a ray that starts in a solid cell, which has no such face, up.
  lemma TracedFace(v: seq<Word>, bricks: seq<Word>, ro: Vec3, dir: Vec3, skip: bool, n: nat)
    requires VoxelSized(v) && BrickSized(bricks)
    ensures var h, entry := Traced(v, bricks, ro, dir, skip, n), Entry(ro, DeZeroed(dir));
      h.Some? ==> entry.Some? && (Gentle(entry.value) ==> FaceIsRight(v, ro, DeZeroed(dir), entry.value, h.value))
  {
    var entry := Entry(ro, DeZeroed(dir));
    EntryEntersBox(ro, DeZeroed(dir));
    hide DeZeroed, Entry, SolidAt, InBoxAt, OnFace, Gentle;
    if entry.Some? && Gentle(entry.value) {
      var r := entry.value;
      FirstHit(v, bricks, r, skip, n);
      if !InBoxAt(ro, DeZeroed(dir), 0.0) {
        FirstCellFace(ro, DeZeroed(dir), r);
      }
    }
  }

  lemma FirstHit(v: seq<Word>, bricks: seq<Word>, r: Ray, skip: bool, n: nat)
    requires VoxelSized(v) && BrickSized(bricks) && Slanted(r) && Gentle(r)
    ensures var h := Trace(v, bricks, r, skip, n);
      h.Some? ==>
        if SolidAt(v, StartCell(r.p)) then h.value == Hit(StartCell(r.p), 0.0, r.face)
        else OnFace(r, h.value.cell, h.value.tEnter, h.value.nrm)
  {
    StartIs(r);
    StartFits(r);
    hide SolidAt, TimesFit, During, Step, OnFace, StartCell;
    if !SolidAt(v, StartCell(r.p)) {
      NormalIsFace(v, bricks, r, skip, Start(r), 0.0, n);
    }
  }
}
