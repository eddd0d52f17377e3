// Exactly when jumping over empty bricks leaves the whole hit alone: cell, time and face.
module HitLimits {
  import opened Grid
  import opened Vectors
  import opened Rays
  import opened Bricks
  import opened SkipTrace
  import opened SkipLimits

  // ------------------------------------------------------------------------------------------
  // Cells that are entered through one face, with some distance to the others
  // ------------------------------------------------------------------------------------------

  // When the ray enters the cell, two of its axes have been in their slabs for longer than g.
  ghost predicate Frontal(r: Ray, c: Cell, g: real)
    requires Slanted(r)
  {
    var t, near := EnterTimes(r, c), Near(r, c);
    || (t.x == near && t.y < near - g && t.z < near - g)
    || (t.y == near && t.x < near - g && t.z < near - g)
    || (t.z == near && t.x < near - g && t.y < near - g)
  }

  ghost predicate FrontalFirst(v: seq<Word>, r: Ray, g: real)
    requires VoxelSized(v) && Slanted(r)
  {
    forall c :: IsFirst(v, r, c) ==> Frontal(r, c, g)
  }

  // At most one face and one time up to the nudge before its entry can be reported for such a cell.
  lemma FrontalDecides(r: Ray, c: Cell, g: real, t: real, nrm: Cell, t': real, nrm': Cell)
    requires Slanted(r) && Frontal(r, c, g) && g >= NUDGE
    requires OnFace(r, c, t, nrm) && t <= Near(r, c) <= t + NUDGE
    requires OnFace(r, c, t', nrm') && t' <= Near(r, c) <= t' + NUDGE
    ensures t == t' && nrm == nrm'
  {
    hide EnterAt, Near, Sign;
  }

  // ------------------------------------------------------------------------------------------
  // Enough steps
  // ------------------------------------------------------------------------------------------

  lemma UnitIsGentle(r: Ray)
    requires Proper(r)
    ensures Gentle(r)
  {
    Square(r.d.x);
    Square(r.d.y);
    Square(r.d.z);
    hide Mul;
  }

  lemma Square(a: real)
    ensures Mul(a, a) >= 0.0 && (AbsR(a) > 1.0 ==> Mul(a, a) > 1.0)
  {
    if a > 1.0 {
      assert a * a > a;
    } else if a < -1.0 {
      assert a * a > -a;
    }
  }

  // The hit of a march from an empty cell of the grid is the first cell in sight, met through the
  // reported face up to the nudge after the reported time.
  lemma HitFacts(v: seq<Word>, bricks: seq<Word>, r: Ray, skip: bool, n: nat)
    requires BricksExact(v, bricks) && Slanted(r) && Gentle(r) && Thick(v, r, NUDGE)
    requires InGrid(StartCell(r.p)) && !SolidAt(v, StartCell(r.p))
    ensures var h := Trace(v, bricks, r, skip, n);
      h.Some? ==> var c, t := h.value.cell, h.value.tEnter;
        IsFirst(v, r, c) && OnFace(r, c, t, h.value.nrm) && t <= Near(r, c) <= t + NUDGE
  {
    var c0 := StartCell(r.p);
    SizesOf(v, bricks);
    ThickEnough(v, r, NUDGE);
    MarchStarts(v, r);
    StartIs(r);
    StartFits(r);
    hide Marching, Thick, SolidAt, IsFirst, BricksExact, Start, StartCell, Near, TraceFrom, TimesFit, During, OnFace,
         Gentle;
    TraceAnswers(v, bricks, r, skip, c0, Start(r), 0.0, 0, n);
    NormalIsFace(v, bricks, r, skip, Start(r), 0.0, n);
  }

  // With steps enough, no thin cell, and a first cell that is entered clearly through one face, the
  // whole hit is the same.
  lemma AmpleHitsAreSame(v: seq<Word>, bricks: seq<Word>, r: Ray, n: nat, g: real)
    requires BricksExact(v, bricks) && Proper(r) && Slanted(r) && Thick(v, r, NUDGE) && n >= AMPLE
    requires FrontalFirst(v, r, g) && g >= NUDGE
    ensures Trace(v, bricks, r, false, n) == Trace(v, bricks, r, true, n)
  {
    UnitIsGentle(r);
    AmpleBudgetAgrees(v, bricks, r, n);
    var a, b := Trace(v, bricks, r, false, n), Trace(v, bricks, r, true, n);
    if InGrid(StartCell(r.p)) && !SolidAt(v, StartCell(r.p)) {
      hide Trace, BricksExact, StartCell, SolidAt, IsFirst, OnFace, Near, Frontal, Proper, Gentle, Thick, AbsR;
      HitFacts(v, bricks, r, false, n);
      HitFacts(v, bricks, r, true, n);
      if a.Some? {
        FrontalDecides(r, a.value.cell, g, a.value.tEnter, a.value.nrm, b.value.tEnter, b.value.nrm);
      }
    } else {
      AtOnce(v, bricks, r, n);
    }
  }

  // Where the march does not even start, jumping makes no difference.
  lemma AtOnce(v: seq<Word>, bricks: seq<Word>, r: Ray, n: nat)
    requires VoxelSized(v) && BrickSized(bricks) && Slanted(r)
    requires n <= 1 || !InGrid(StartCell(r.p)) || SolidAt(v, StartCell(r.p))
    ensures Trace(v, bricks, r, false, n) == Trace(v, bricks, r, true, n)
  {
    StartIs(r);
    hide Step, SolidAt, Start, StartCell;
  }

  // A primary ray reports the same hit, to the point and the face.
  lemma PrimaryHitsAreSame(v: seq<Word>, bricks: seq<Word>, ro: Vec3, dir: Vec3)
    requires BricksExact(v, bricks)
    requires forall r :: Marches(ro, dir, r) && Slanted(r) ==>
      Proper(r) && Thick(v, r, NUDGE) && FrontalFirst(v, r, NUDGE)
    ensures Traced(v, bricks, ro, dir, false, 768) == Traced(v, bricks, ro, dir, true, 768)
  {
    hide Entry, Trace, Thick, DeZeroed, BrickSolid, FrontalFirst, Proper;
    var entry := Entry(ro, DeZeroed(dir));
    if entry.Some? {
      var r := entry.value;
      assert Marches(ro, dir, r) && Slanted(r);
      AmpleHitsAreSame(v, bricks, r, 768, NUDGE);
    }
  }

  // ------------------------------------------------------------------------------------------
  // Too few steps
  // ------------------------------------------------------------------------------------------

  // Close to the diagonal, and every cell on the way is entered clearly through one face.
  function Tilted(): Ray {
    Ray(Vec3(1.0 / 2.0, 1.0 / 4.0, 1.0 / 10.0), Vec3(330.0 / 571.0, 330.0 / 571.0, 329.0 / 571.0), UP)
  }

  const THICKNESS: real := 0.35
  const GAP: real := 0.25

  // The cell is crossed for more than the thickness, and entered through one face with the gap.
  ghost predicate Clear(r: Ray, e: Cell)
    requires Slanted(r)
  {
    Far(r, e) - Near(r, e) > THICKNESS && Far(r, e) > 0.0 && Frontal(r, e, GAP)
  }

  lemma TiltedFacts()
    ensures Proper(Tilted()) && Slanted(Tilted()) && StartCell(Tilted().p) == Diagonal(0)
    ensures Tilted().d.x > 0.0 && Tilted().d.y > 0.0 && Tilted().d.z > 0.0
  {
  }

  lemma TiltedDiagonal(m: nat)
    requires BRICK_DIM <= m < WORLD_DIM
    ensures Slanted(Tilted()) && Clear(Tilted(), Diagonal(m))
  {
    var c := Diagonal(m);
    var x, y := (m as real - 1.0 / 2.0) * 571.0 / 330.0, (m as real - 1.0 / 4.0) * 571.0 / 330.0;
    var z := (m as real - 1.0 / 10.0) * 571.0 / 329.0;
    assert EnterTimes(Tilted(), c) == Vec3(x, y, z);
    assert LeaveTimes(Tilted(), c) == Vec3(x + 571.0 / 330.0, y + 571.0 / 330.0, z + 571.0 / 329.0);
    hide EnterTimes, LeaveTimes;
    assert Near(Tilted(), c) == z && Far(Tilted(), c) == x + 571.0 / 330.0;
  }

  const SIDE := Cell(8, 7, 7)

  lemma TiltedSide()
    ensures Slanted(Tilted()) && Clear(Tilted(), SIDE)
  {
    assert EnterTimes(Tilted(), SIDE) == Vec3(571.0 / 44.0, 27.0 * 571.0 / 1320.0, 69.0 * 571.0 / 3290.0);
    assert LeaveTimes(Tilted(), SIDE) == Vec3(17.0 * 571.0 / 660.0, 31.0 * 571.0 / 1320.0, 79.0 * 571.0 / 3290.0);
    hide EnterTimes, LeaveTimes;
    assert Near(Tilted(), SIDE) == 571.0 / 44.0 && Far(Tilted(), SIDE) == 31.0 * 571.0 / 1320.0;
  }

  lemma TiltedJump()
    ensures Slanted(Tilted()) && SkipStep(Tilted(), Start(Tilted())).cell == SIDE
  {
    TiltedFacts();
    assert BrickSkipT(Tilted(), Diagonal(0)) == 571.0 / 44.0;
    assert CellAtTime(Tilted(), 571.0 / 44.0 + NUDGE) == SIDE;
  }

  // A cell for each budget, which jumping reaches and stepping does not.
  function Beyond(n: nat): Cell {
    if n <= 22 then SIDE
    else Diagonal(if n <= 24 then 8 else if n <= 45 then 15 else if n <= 69 then 23 else 127)
  }

  lemma BeyondFacts(n: nat)
    requires 2 <= n < AMPLE
    ensures var e := Beyond(n);
      && InGrid(e) && Manhattan(e, Diagonal(0)) >= n && BrickOf(e) != BrickOf(Diagonal(0))
      && (n > 22 ==> n > Manhattan(BrickOf(e), BrickOf(Diagonal(0))) + StepsIn(e, Vec3(1.0, 1.0, 1.0)))
  {
  }

  lemma SameSteps(e: Cell, d: Vec3, d': Vec3)
    requires d.x > 0.0 && d.y > 0.0 && d.z > 0.0 && d'.x > 0.0 && d'.y > 0.0 && d'.z > 0.0
    ensures StepsIn(e, d) == StepsIn(e, d')
  {
  }

  // The only solid cell is the first one in sight, and as thick and as frontal as it is clear.
  lemma OnlyFirst(v: seq<Word>, r: Ray, e: Cell, w: real, g: real)
    requires VoxelSized(v) && OnlySolid(v, {e}) && Slanted(r) && Clear(r, e) && 0.0 <= w <= THICKNESS && g <= GAP
    ensures Thick(v, r, w) && IsFirst(v, r, e) && FrontalFirst(v, r, g)
  {
    hide Near, Far, SolidAt, EnterTimes;
    OnlyIsSolid(v, e);
  }

  lemma TiltedReached(v: seq<Word>, bricks: seq<Word>, n: nat)
    requires BricksExact(v, bricks) && 2 <= n < AMPLE && OnlySolid(v, {Beyond(n)})
    ensures Slanted(Tilted()) && Trace(v, bricks, Tilted(), true, n).Some?
  {
    hide Tilted, Thick, IsFirst, SolidAt, ClearButFor, BricksExact, OnlySolid, Slanted, Proper, Clear, FrontalFirst,
         TraceFrom, StartCell, Start, SkipStep, BrickIsEmpty, StepsIn, Manhattan, BrickOf;
    var e, r := Beyond(n), Tilted();
    SizesOf(v, bricks);
    TiltedFacts();
    BeyondFacts(n);
    BeyondIsClear(n);
    OnlyFirst(v, r, e, NUDGE, NUDGE);
    OnlyIsSolid(v, e);
    if n <= 22 {
      TiltedJump();
      StartIs(r);
      OtherBricksEmpty(v, bricks, {e}, Diagonal(0));
      FoundNext(v, bricks, r, Start(r), n);
    } else {
      SameSteps(e, r.d, Vec3(1.0, 1.0, 1.0));
      AloneAhead(v, Diagonal(0), r.d, e);
      JumpingFinds(v, bricks, r, e, n);
    }
  }

  lemma BeyondIsClear(n: nat)
    requires 2 <= n < AMPLE
    ensures Slanted(Tilted()) && Clear(Tilted(), Beyond(n))
  {
    hide Tilted, Clear, Slanted;
    TiltedSide();
    if n > 22 {
      TiltedDiagonal(Beyond(n).x);
    }
  }

  lemma TiltedDiffers(n: nat, w: real, g: real) returns (v: seq<Word>, bricks: seq<Word>)
    requires 2 <= n < AMPLE && 0.0 <= w <= THICKNESS && g <= GAP
    ensures BricksExact(v, bricks) && Proper(Tilted()) && Slanted(Tilted()) && Thick(v, Tilted(), w)
    ensures FrontalFirst(v, Tilted(), g)
    ensures Trace(v, bricks, Tilted(), false, n) != Trace(v, bricks, Tilted(), true, n)
  {
    hide Tilted, Thick, IsFirst, SolidAt, BricksExact, OnlySolid, Slanted, Proper, Clear, FrontalFirst, Trace,
         StartCell, Manhattan, BrickOf, StepsIn;
    var e := Beyond(n);
    TiltedFacts();
    BeyondFacts(n);
    BeyondIsClear(n);
    v, bricks := SceneOf({e});
    SizesOf(v, bricks);
    OnlyIsSolid(v, e);
    OnlyFirst(v, Tilted(), e, w, g);
    OnlyFirst(v, Tilted(), e, 0.0, g);
    TiltedReached(v, bricks, n);
    SteppingMisses(v, bricks, Tilted(), e, n);
  }

  // ------------------------------------------------------------------------------------------
  // Thin cells, and cells met next to an edge
  // ------------------------------------------------------------------------------------------

  lemma FirstAlone(v: seq<Word>, r: Ray, e: Cell, g: real)
    requires VoxelSized(v) && Slanted(r) && Thick(v, r, 0.0) && IsFirst(v, r, e) && Frontal(r, e, g)
    ensures FrontalFirst(v, r, g)
  {
    forall c | IsFirst(v, r, c)
      ensures Frontal(r, c, g)
    {
      FirstIsUnique(v, r, c, e);
    }
  }

  lemma CornerIsFrontal()
    ensures Slanted(Glancing()) && Frontal(Glancing(), CORNER, GAP)
  {
    GlancingFacts();
    assert EnterTimes(Glancing(), CORNER) == Vec3(11.249, 9.7495, 8.939);
    hide EnterTimes, Near;
  }

  lemma ThinDiffers(n: nat, w: real, g: real) returns (v: seq<Word>, bricks: seq<Word>)
    requires n >= AMPLE && 0.0 <= w < NUDGE && g <= GAP
    ensures BricksExact(v, bricks) && Proper(Glancing()) && Slanted(Glancing()) && Thick(v, Glancing(), w)
    ensures FrontalFirst(v, Glancing(), g)
    ensures Trace(v, bricks, Glancing(), false, n) != Trace(v, bricks, Glancing(), true, n)
  {
    hide Glancing, Thick, IsFirst, SolidAt, BricksExact, OnlySolid, Slanted, Proper, FrontalFirst, Trace;
    v, bricks := GlancingDisagrees(n, w);
    SizesOf(v, bricks);
    GlancingSight(v, w);
    GlancingSight(v, 0.0);
    CornerIsFrontal();
    FirstAlone(v, Glancing(), CORNER, GAP);
    LessFrontal(v, Glancing(), GAP, g);
  }

  lemma LessFrontal(v: seq<Word>, r: Ray, g: real, g': real)
    requires VoxelSized(v) && Slanted(r) && FrontalFirst(v, r, g) && g' <= g
    ensures FrontalFirst(v, r, g')
  {
    hide Near, EnterTimes, IsFirst;
  }

  // The cell past the corner is entered through one face, but only the nudge after another one.
  lemma PastIsFrontal(g: real)
    requires g < NUDGE
    ensures Slanted(Glancing()) && Frontal(Glancing(), PAST, g)
  {
    PastTimes();
    hide EnterTimes, Near, Glancing;
  }

  lemma EdgeDiffers(n: nat, w: real, g: real) returns (v: seq<Word>, bricks: seq<Word>)
    requires n >= AMPLE && 0.0 <= w < 0.5 && g < NUDGE
    ensures BricksExact(v, bricks) && Proper(Glancing()) && Slanted(Glancing()) && Thick(v, Glancing(), w)
    ensures FrontalFirst(v, Glancing(), g)
    ensures Trace(v, bricks, Glancing(), false, n) != Trace(v, bricks, Glancing(), true, n)
  {
    hide Glancing, Thick, IsFirst, SolidAt, BricksExact, OnlySolid, Slanted, Proper, FrontalFirst, Trace, Frontal,
         InGrid, Near, Far, EnterTimes, BrickOf, Manhattan, StartCell, Gentle, Sign;
    PastCells();
    PastTimes();
    GlancingFacts();
    v, bricks := SceneOf({SOURCE, PAST});
    SizesOf(v, bricks);
    FirstAhead(v, Glancing(), PAST, w);
    FirstAhead(v, Glancing(), PAST, 0.0);
    PastIsFrontal(g);
    FirstAlone(v, Glancing(), PAST, g);
    PastStepped(v, bricks, n);
    PastJumped(v, bricks, n);
  }

  // ------------------------------------------------------------------------------------------
  // The exact conditions
  // ------------------------------------------------------------------------------------------

  // In every scene whose solid cells are all crossed for more than w, and whose first one in sight
  // is entered through one face with a gap of more than g, n steps report the same hit.
  ghost predicate HitsAreSame(n: nat, w: real, g: real) {
    forall v, bricks, r ::
      BricksExact(v, bricks) && Proper(r) && Slanted(r) && Thick(v, r, w) && FrontalFirst(v, r, g) ==>
        Trace(v, bricks, r, false, n) == Trace(v, bricks, r, true, n)
  }

  lemma HitsAreSameExactly(n: nat, w: real, g: real)
    requires 0.0 <= w <= THICKNESS && 0.0 <= g && (g <= GAP || (n >= AMPLE && w >= NUDGE))
    ensures HitsAreSame(n, w, g) <==> n <= 1 || (n >= AMPLE && w >= NUDGE && g >= NUDGE)
  {
    hide Proper, Slanted, Thick, FrontalFirst, Trace, Tilted, Glancing, BrickSolid;
    if n <= 1 {
      forall v, bricks, r |
        BricksExact(v, bricks) && Proper(r) && Slanted(r) && Thick(v, r, w) && FrontalFirst(v, r, g)
        ensures Trace(v, bricks, r, false, n) == Trace(v, bricks, r, true, n)
      {
        AtOnce(v, bricks, r, n);
      }
    } else if n < AMPLE {
      var v, bricks := TiltedDiffers(n, w, g);
    } else if w < NUDGE {
      var v, bricks := ThinDiffers(n, w, g);
    } else if g < NUDGE {
      var v, bricks := EdgeDiffers(n, w, g);
    } else {
      forall v, bricks, r |
        BricksExact(v, bricks) && Proper(r) && Slanted(r) && Thick(v, r, w) && FrontalFirst(v, r, g)
        ensures Trace(v, bricks, r, false, n) == Trace(v, bricks, r, true, n)
      {
        Thicker(v, bricks, r, w, NUDGE);
        AmpleHitsAreSame(v, bricks, r, n, g);
      }
    }
  }
}
