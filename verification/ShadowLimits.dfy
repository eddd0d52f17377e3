// Exactly when jumping over empty bricks leaves the shader's shadows alone.
module ShadowLimits {
  import opened Grid
  import opened Vectors
  import opened Rays
  import opened Bricks
  import opened SkipTrace
  import opened SkipLimits

  // ------------------------------------------------------------------------------------------
  // What stepping and jumping see
  // ------------------------------------------------------------------------------------------

  // A solid cell in sight is at most n cells away.
  ghost predicate SeenWithin(v: seq<Word>, r: Ray, c0: Cell, n: nat)
    requires VoxelSized(v) && Slanted(r)
  {
    exists e :: Sight(v, r, e) && Manhattan(e, c0) <= n
  }

  lemma {:induction false} SteppingSees(v: seq<Word>, bricks: seq<Word>, r: Ray, c0: Cell, s: Dda, t: real, k: nat,
                                        n: nat)
    requires VoxelSized(v) && BrickSized(bricks) && Slanted(r) && Thick(v, r, 0.0) && Marching(v, r, c0, s, t, k)
    requires Manhattan(s.cell, c0) == k && !SolidAt(v, s.cell)
    ensures OccludedFrom(v, bricks, r, false, s, n) ==> SeenWithin(v, r, c0, k + n)
    decreases n
  {
    var s1 := FineStep(r, s);
    AtFirst(v, r, c0, s, t, k);
    FineMoves(r, s, c0);
    FineKeeps(v, r, c0, s, t, k);
    hide Marching, Thick, Sight, SolidAt, FineStep, Manhattan, AllOnWay, BrickIsEmpty;
    if n > 0 && InGrid(s1.cell) {
      if SolidAt(v, s1.cell) {
        ArrivedIsFirst(v, r, c0, s1, s1.tEnter, k + 1);
        assert Sight(v, r, s1.cell);
      } else {
        SteppingSees(v, bricks, r, c0, s1, s1.tEnter, k + 1, n - 1);
      }
    }
  }

  // From an empty cell of the grid, n turns of stepping find something exactly if something in
  // sight is at most n cells away; jumping finds it as well.
  lemma SteppingSeesExactly(v: seq<Word>, bricks: seq<Word>, r: Ray, n: nat)
    requires BricksExact(v, bricks) && Slanted(r) && Thick(v, r, 0.0)
    requires InGrid(StartCell(r.p)) && !SolidAt(v, StartCell(r.p))
    ensures OccludedFrom(v, bricks, r, false, Start(r), n) <==> SeenWithin(v, r, StartCell(r.p), n)
    ensures Thick(v, r, NUDGE) && SeenWithin(v, r, StartCell(r.p), n) ==> OccludedFrom(v, bricks, r, true, Start(r), n)
  {
    var c0 := StartCell(r.p);
    SizesOf(v, bricks);
    MarchStarts(v, r);
    StartIs(r);
    assert Manhattan(c0, c0) == 0;
    hide Marching, Thick, Sight, SolidAt, BricksExact, Start, StartCell, Manhattan, OccludedFrom;
    SteppingSees(v, bricks, r, c0, Start(r), 0.0, 0, n);
    OccludedAnswers(v, bricks, r, false, c0, Start(r), 0.0, 0, n);
    if Thick(v, r, NUDGE) {
      OccludedAnswers(v, bricks, r, true, c0, Start(r), 0.0, 0, n);
    }
  }

  // For any budget: the two shadows agree if and only if what jumping finds is near enough for
  // stepping.
  lemma ShadowsAgreeIffReached(v: seq<Word>, bricks: seq<Word>, r: Ray, n: nat)
    requires BricksExact(v, bricks) && Slanted(r) && Thick(v, r, NUDGE)
    requires InGrid(StartCell(r.p)) && !SolidAt(v, StartCell(r.p))
    ensures OccludedFrom(v, bricks, r, false, Start(r), n) == OccludedFrom(v, bricks, r, true, Start(r), n) <==>
      (OccludedFrom(v, bricks, r, true, Start(r), n) ==> SeenWithin(v, r, StartCell(r.p), n))
  {
    ThickEnough(v, r, NUDGE);
    hide Thick, Sight, SolidAt, BricksExact, Start, StartCell, OccludedFrom, SeenWithin;
    SteppingSeesExactly(v, bricks, r, n);
  }

  // A shadow ray only finds what is ahead of where it is.
  lemma {:induction false} ShadowStaysAhead(v: seq<Word>, bricks: seq<Word>, r: Ray, skip: bool, s: Dda, t: real,
                                            n: nat)
    requires VoxelSized(v) && BrickSized(bricks) && Slanted(r) && TimesFit(r, s) && During(r, s.cell, t)
    ensures OccludedFrom(v, bricks, r, skip, s, n) ==> exists e :: SolidAt(v, e) && AllOnWay(s.cell, r.d, e)
    decreases n
  {
    var s1 := FineStep(r, s);
    var s2 := SkipStep(r, s1);
    FineMoves(r, s, s.cell);
    FineStepFacts(r, s, t);
    SkipStepFacts(r, s1, s1.tEnter);
    hide SolidAt, During, TimesFit, FineStep, SkipStep, BrickIsEmpty, BrickSkipT, AllOnWay;
    if n > 0 && InGrid(s1.cell) && !SolidAt(v, s1.cell) {
      if skip && BrickIsEmpty(bricks, s1.cell) && s2.cell != s1.cell {
        OnwardTwice(s.cell, r.d, s1.cell, s2.cell);
        if InGrid(s2.cell) && !SolidAt(v, s2.cell) {
          ShadowStaysAhead(v, bricks, r, skip, s2, BrickSkipT(r, s1.cell) + NUDGE, n - 1);
          Onward(v, s.cell, r.d, s2.cell);
        }
      } else {
        ShadowStaysAhead(v, bricks, r, skip, s1, s1.tEnter, n - 1);
        Onward(v, s.cell, r.d, s1.cell);
      }
    }
  }

  lemma OnwardTwice(c: Cell, d: Vec3, c': Cell, c'': Cell)
    requires AllOnWay(c, d, c') && AllOnWay(c', d, c'')
    ensures AllOnWay(c, d, c'')
  {
  }

  // What is ahead of a later cell is ahead of an earlier one.
  lemma Onward(v: seq<Word>, c: Cell, d: Vec3, c': Cell)
    requires VoxelSized(v) && AllOnWay(c, d, c')
    ensures (exists e :: SolidAt(v, e) && AllOnWay(c', d, e)) ==> exists e :: SolidAt(v, e) && AllOnWay(c, d, e)
  {
    hide SolidAt;
    if e :| SolidAt(v, e) && AllOnWay(c', d, e) {
      OnwardTwice(c, d, c', e);
    }
  }

  // ------------------------------------------------------------------------------------------
  // The first turn of a shadow ray: a step and a jump
  // ------------------------------------------------------------------------------------------

  function FirstJump(r: Ray): Dda
    requires Slanted(r)
  {
    SkipStep(r, FineStep(r, Start(r)))
  }

  // The first turn is made through an empty brick.
  ghost predicate JumpsFirst(v: seq<Word>, bricks: seq<Word>, r: Ray)
    requires VoxelSized(v) && BrickSized(bricks) && Slanted(r)
  {
    var c := FineStep(r, Start(r)).cell;
    InGrid(c) && !SolidAt(v, c) && BrickIsEmpty(bricks, c) && FirstJump(r).cell != c
  }

  // What the first jump lands in, or what is near enough from there, is found.
  lemma FoundAfterJump(v: seq<Word>, bricks: seq<Word>, r: Ray, e: Cell, n: nat)
    requires BricksExact(v, bricks) && Slanted(r) && Thick(v, r, NUDGE) && !SolidAt(v, StartCell(r.p)) && n > 0
    requires JumpsFirst(v, bricks, r) && InGrid(FirstJump(r).cell) && Sight(v, r, e)
    requires Manhattan(e, FirstJump(r).cell) < n
    ensures OccludedFrom(v, bricks, r, true, Start(r), n)
  {
    var c0, s := StartCell(r.p), Start(r);
    var s1 := FineStep(r, s);
    var s2 := SkipStep(r, s1);
    ThickEnough(v, r, NUDGE);
    MarchStarts(v, r);
    StartIs(r);
    hide Marching, Thick, Sight, SolidAt, BricksExact, Start, StartCell, Manhattan, FineStep, SkipStep, BrickIsEmpty,
         AllOnWay;
    FineKeeps(v, r, c0, s, 0.0, 0);
    SkipKeeps(v, bricks, r, c0, s1, s1.tEnter, 1);
    if !SolidAt(v, s2.cell) {
      StartsHere(v, r, c0, s2, s2.tEnter + NUDGE, 2);
      OccludedAnswers(v, bricks, r, true, s2.cell, s2, s2.tEnter + NUDGE, 0, n - 1);
    }
  }

  // A first jump that leaves every solid cell behind.
  lemma NothingAfterJump(v: seq<Word>, bricks: seq<Word>, r: Ray, n: nat)
    requires VoxelSized(v) && BrickSized(bricks) && Slanted(r) && JumpsFirst(v, bricks, r)
    requires forall e :: SolidAt(v, e) ==> !AllOnWay(FirstJump(r).cell, r.d, e)
    ensures !OccludedFrom(v, bricks, r, true, Start(r), n)
  {
    var s := Start(r);
    var s1 := FineStep(r, s);
    var s2 := SkipStep(r, s1);
    StartIs(r);
    StartFits(r);
    FineStepFacts(r, s, 0.0);
    SkipStepFacts(r, s1, s1.tEnter);
    assert AllOnWay(s2.cell, r.d, s2.cell);
    hide SolidAt, Start, StartCell, FineStep, SkipStep, BrickIsEmpty, AllOnWay, TimesFit, During, BrickSkipT;
    if n > 0 {
      ShadowStaysAhead(v, bricks, r, true, s2, BrickSkipT(r, s1.cell) + NUDGE, n - 1);
    }
  }

  // ------------------------------------------------------------------------------------------
  // Enough turns
  // ------------------------------------------------------------------------------------------

  lemma SightInGrid(v: seq<Word>, r: Ray, e: Cell, c0: Cell)
    requires VoxelSized(v) && Slanted(r) && Sight(v, r, e) && InGrid(c0)
    ensures Manhattan(e, c0) < AMPLE
  {
  }

  lemma OneStep(r: Ray, e: Cell)
    requires Slanted(r)
    ensures Manhattan(e, StartCell(r.p)) <= Manhattan(e, FineStep(r, Start(r)).cell) + 1
  {
    StartIs(r);
    var s := Start(r);
    hide Start, StartCell;
    assert Sign(r.d.x) == 1 || Sign(r.d.x) == -1;
    assert Sign(r.d.y) == 1 || Sign(r.d.y) == -1;
    assert Sign(r.d.z) == 1 || Sign(r.d.z) == -1;
    hide Sign;
  }

  // As many turns as the longest way through the grid, and one more from a start outside.
  function AmpleTurns(inside: bool): nat {
    if inside then AMPLE - 1 else AMPLE
  }

  lemma AmpleShadowsAgree(v: seq<Word>, bricks: seq<Word>, r: Ray, n: nat, inside: bool)
    requires BricksExact(v, bricks) && Slanted(r) && Thick(v, r, NUDGE) && !SolidAt(v, StartCell(r.p))
    requires (inside ==> InGrid(StartCell(r.p))) && n >= AmpleTurns(inside)
    ensures OccludedFrom(v, bricks, r, false, Start(r), n) == OccludedFrom(v, bricks, r, true, Start(r), n)
  {
    SizesOf(v, bricks);
    var c0, c1 := StartCell(r.p), FineStep(r, Start(r)).cell;
    hide Thick, SolidAt, BricksExact, FineStep, SkipStep, BrickIsEmpty, Start, StartCell, Sight, Manhattan;
    if InGrid(c0) || InGrid(c1) {
      forall e | Sight(v, r, e)
        ensures Manhattan(e, c0) <= n
      {
        if InGrid(c0) {
          SightInGrid(v, r, e, c0);
        } else {
          SightInGrid(v, r, e, c1);
          OneStep(r, e);
        }
      }
      SkippingKeepsShadows(v, bricks, r, n);
    }
  }

  // ------------------------------------------------------------------------------------------
  // Too few turns
  // ------------------------------------------------------------------------------------------

  // Along the diagonal the first step leads up, and the jump to the cell (8, 8, 8).
  lemma LongTurn()
    ensures Slanted(Long()) && FineStep(Long(), Start(Long())).cell == Cell(0, 0, 1)
    ensures FirstJump(Long()).cell == Diagonal(BRICK_DIM)
  {
    LongFacts();
    assert Start(Long()).tMax == Vec3(571.0 / 660.0, 571.0 / 660.0, 21.0 * 571.0 / (44.0 * 329.0));
    assert FineStep(Long(), Start(Long())).cell == Cell(0, 0, 1);
    assert BrickSkipT(Long(), Cell(0, 0, 1)) == 571.0 / 44.0;
    assert CellAtTime(Long(), 571.0 / 44.0 + NUDGE) == Diagonal(8);
  }

  // A cell of the diagonal for each number of turns, which jumping reaches and stepping does not.
  function TooFar(n: nat): nat {
    if n <= 23 then 8 else if n <= 44 then 15 else if n <= 68 then 23 else 127
  }

  lemma LongShadow(v: seq<Word>, bricks: seq<Word>, n: nat)
    requires BricksExact(v, bricks) && 1 <= n < AMPLE - 1 && OnlySolid(v, {Diagonal(TooFar(n))})
    ensures Slanted(Long()) && OccludedFrom(v, bricks, Long(), true, Start(Long()), n)
  {
    hide Long, Thick, IsFirst, Sight, SolidAt, ClearButFor, BricksExact, OnlySolid, Slanted, Proper, OccludedFrom,
         StartCell, Start;
    var m := TooFar(n);
    SizesOf(v, bricks);
    LongFacts();
    LongSight(v, m, NUDGE);
    LongBricks(m);
    if m <= 15 {
      LongJumps(v, bricks, m);
      FirstIsSeen(v, Long(), Diagonal(m));
      FoundAfterJump(v, bricks, Long(), Diagonal(m), n);
    } else {
      AloneAhead(v, Diagonal(0), Long().d, Diagonal(m));
      ShadowFound(v, bricks, Long(), Diagonal(m), n);
    }
  }

  lemma FirstIsSeen(v: seq<Word>, r: Ray, e: Cell)
    requires VoxelSized(v) && Slanted(r) && IsFirst(v, r, e)
    ensures Sight(v, r, e)
  {
  }

  lemma LongJumps(v: seq<Word>, bricks: seq<Word>, m: nat)
    requires BricksExact(v, bricks) && 8 <= m <= 15 && OnlySolid(v, {Diagonal(m)})
    ensures Slanted(Long()) && JumpsFirst(v, bricks, Long()) && InGrid(FirstJump(Long()).cell)
    ensures Manhattan(Diagonal(m), FirstJump(Long()).cell) == 3 * (m - 8)
  {
    hide Long, SolidAt, BricksExact, OnlySolid, Slanted, FineStep, SkipStep, FirstJump, BrickIsEmpty, Start;
    SizesOf(v, bricks);
    LongTurn();
    OtherBricksEmpty(v, bricks, {Diagonal(m)}, Cell(0, 0, 1));
    OnlyIsSolid(v, Diagonal(m));
    assert Diagonal(m) != Cell(0, 0, 1) && Diagonal(8) != Cell(0, 0, 1) && InGrid(Diagonal(8));
  }

  // Stepping does not get to a cell that is the only solid one and too far away.
  lemma TurnsMiss(v: seq<Word>, bricks: seq<Word>, r: Ray, e: Cell, n: nat)
    requires VoxelSized(v) && BrickSized(bricks) && Slanted(r) && OnlySolid(v, {e})
    requires Manhattan(e, StartCell(r.p)) > n
    ensures !OccludedFrom(v, bricks, r, false, Start(r), n)
  {
    hide Slanted, SolidAt, StartCell, Start, OccludedFrom, OnlySolid;
    StartIs(r);
    OnlyIsSolid(v, e);
    ShadowReach(v, bricks, r, StartCell(r.p), Start(r), n);
  }

  lemma LongShadowDisagrees(n: nat, w: real) returns (v: seq<Word>, bricks: seq<Word>)
    requires 1 <= n < AMPLE - 1 && w < 1.0
    ensures BricksExact(v, bricks) && Proper(Long()) && Slanted(Long()) && Thick(v, Long(), w)
    ensures InGrid(StartCell(Long().p)) && !SolidAt(v, StartCell(Long().p))
    ensures !OccludedFrom(v, bricks, Long(), false, Start(Long()), n)
    ensures OccludedFrom(v, bricks, Long(), true, Start(Long()), n)
  {
    var m := TooFar(n);
    assert InGrid(Diagonal(m));
    hide Long, OnlySolid, Thick, SolidAt, BricksExact, OccludedFrom, Start, Manhattan, IsFirst, StartCell, Proper,
         Slanted;
    LongBricks(m);
    LongFacts();
    v, bricks := SceneOf({Diagonal(m)});
    SizesOf(v, bricks);
    LongSight(v, m, w);
    LongShadow(v, bricks, n);
    TurnsMiss(v, bricks, Long(), Diagonal(m), n);
  }

  // ------------------------------------------------------------------------------------------
  // From next to the grid the way is one step longer
  // ------------------------------------------------------------------------------------------

  function Beside(): Ray {
    Ray(Vec3(-1.0 / 100.0, 1.0 / 5.0, 1.0 / 2.0), Vec3(330.0 / 571.0, 330.0 / 571.0, 329.0 / 571.0), UP)
  }

  const OUTSIDE := Cell(-1, 0, 0)
  const LAST := Cell(127, 127, 127)

  lemma BesideFacts()
    ensures Proper(Beside()) && Slanted(Beside()) && StartCell(Beside().p) == OUTSIDE
    ensures Far(Beside(), LAST) - Near(Beside(), LAST) > 1.0 && Far(Beside(), LAST) > 0.0
  {
    assert EnterTimes(Beside(), LAST) == Vec3(12701.0 * 571.0 / 33000.0, 1268.0 * 571.0 / 3300.0,
                                              253.0 * 571.0 / 658.0);
    assert LeaveTimes(Beside(), LAST) == Vec3(12801.0 * 571.0 / 33000.0, 1278.0 * 571.0 / 3300.0,
                                              255.0 * 571.0 / 658.0);
  }

  lemma BesideTurn()
    ensures Slanted(Beside()) && FineStep(Beside(), Start(Beside())).cell == Cell(0, 0, 0)
  {
    BesideFacts();
    assert Start(Beside()).tMax == Vec3(571.0 / 33000.0, 8.0 * 571.0 / 3300.0, 571.0 / 658.0);
  }

  lemma BesideCells()
    ensures Manhattan(LAST, OUTSIDE) == 382 && InGrid(LAST) && InGrid(Cell(0, 0, 0)) && !InGrid(OUTSIDE)
    ensures Manhattan(BrickOf(LAST), BrickOf(Cell(0, 0, 0))) == 45 && BrickOf(LAST) != BrickOf(Cell(0, 0, 0))
  {
  }

  lemma BesideSight(v: seq<Word>, w: real)
    requires VoxelSized(v) && OnlySolid(v, {LAST}) && w < 1.0
    ensures Slanted(Beside()) && Thick(v, Beside(), w) && Sight(v, Beside(), LAST)
    ensures !SolidAt(v, OUTSIDE) && !SolidAt(v, Cell(0, 0, 0))
  {
    BesideFacts();
    hide Near, Far, SolidAt;
  }

  lemma BesideFound(v: seq<Word>, bricks: seq<Word>, n: nat)
    requires BricksExact(v, bricks) && OnlySolid(v, {LAST}) && n > 67
    ensures Slanted(Beside()) && OccludedFrom(v, bricks, Beside(), true, Start(Beside()), n)
  {
    hide Beside, Thick, Sight, SolidAt, ClearButFor, BricksExact, OnlySolid, Slanted, Proper, OccludedFrom, StartCell,
         Start, FineStep, Marching, Manhattan, BrickIsEmpty, BrickOf, InGrid, Near, Far;
    var r, c1 := Beside(), Cell(0, 0, 0);
    SizesOf(v, bricks);
    BesideFacts();
    BesideTurn();
    BesideCells();
    BesideSight(v, NUDGE);
    BesideSight(v, 0.0);
    MarchStarts(v, r);
    StartIs(r);
    var s := Start(r);
    var s1 := FineStep(r, s);
    FineKeeps(v, r, OUTSIDE, s, 0.0, 0);
    StartsHere(v, r, OUTSIDE, s1, s1.tEnter, 1);
    OtherBricksEmpty(v, bricks, {LAST}, c1);
    AloneAhead(v, c1, r.d, LAST);
    StepsInBound(LAST, r.d);
    ShadowJump(v, bricks, r, c1, s, s1, s1.tEnter, 0, LAST, n);
  }

  lemma BesideDisagrees(n: nat, w: real) returns (v: seq<Word>, bricks: seq<Word>)
    requires 67 < n < AMPLE && w < 1.0
    ensures BricksExact(v, bricks) && Proper(Beside()) && Slanted(Beside()) && Thick(v, Beside(), w)
    ensures !SolidAt(v, StartCell(Beside().p))
    ensures !OccludedFrom(v, bricks, Beside(), false, Start(Beside()), n)
    ensures OccludedFrom(v, bricks, Beside(), true, Start(Beside()), n)
  {
    hide Beside, Thick, Sight, SolidAt, BricksExact, OnlySolid, Slanted, Proper, OccludedFrom, StartCell, Start,
         Manhattan, BrickOf, InGrid, Near, Far;
    BesideFacts();
    BesideCells();
    v, bricks := SceneOf({LAST});
    SizesOf(v, bricks);
    BesideSight(v, w);
    BesideFound(v, bricks, n);
    TurnsMiss(v, bricks, Beside(), LAST, n);
  }

  // ------------------------------------------------------------------------------------------
  // A corner crossed for exactly the nudge casts no shadow with jumping
  // ------------------------------------------------------------------------------------------

  lemma GlancingTurn()
    ensures Slanted(Glancing()) && FineStep(Glancing(), Start(Glancing())).cell == Cell(1, 0, 8)
    ensures FirstJump(Glancing()).cell == PAST
  {
    GlancingFacts();
    assert Start(Glancing()).tMax == Vec3(0.749, 0.7495, 2.939);
    assert FineStep(Glancing(), Start(Glancing())).cell == Cell(1, 0, 8);
    assert BrickSkipT(Glancing(), Cell(1, 0, 8)) == 11.249;
    assert CellAtTime(Glancing(), 11.249 + NUDGE) == PAST;
  }

  lemma GlancingBeside()
    ensures InGrid(Cell(1, 0, 8)) && Cell(1, 0, 8) != PAST && Cell(1, 0, 8) != SOURCE && Cell(1, 0, 8) != CORNER
    ensures BrickOf(CORNER) != BrickOf(Cell(1, 0, 8)) && BrickOf(SOURCE) != BrickOf(Cell(1, 0, 8))
  {
  }

  lemma GlancingJumpsFirst(v: seq<Word>, bricks: seq<Word>)
    requires BricksExact(v, bricks) && OnlySolid(v, {SOURCE, CORNER})
    ensures Slanted(Glancing()) && JumpsFirst(v, bricks, Glancing())
  {
    hide Glancing, SolidAt, BricksExact, OnlySolid, Slanted, FineStep, SkipStep, FirstJump, BrickIsEmpty, Start,
         BrickOf, InGrid;
    SizesOf(v, bricks);
    GlancingTurn();
    GlancingBeside();
    OtherBricksEmpty(v, bricks, {SOURCE, CORNER}, Cell(1, 0, 8));
    OnlyAreSolid(v, SOURCE, CORNER);
  }

  lemma GlancingShadowDisagrees(n: nat, w: real) returns (v: seq<Word>, bricks: seq<Word>)
    requires n >= 18 && 0.0 <= w < NUDGE
    ensures BricksExact(v, bricks) && Proper(Glancing()) && Slanted(Glancing()) && Thick(v, Glancing(), w)
    ensures InGrid(StartCell(Glancing().p)) && !SolidAt(v, StartCell(Glancing().p))
    ensures OccludedFrom(v, bricks, Glancing(), false, Start(Glancing()), n)
    ensures !OccludedFrom(v, bricks, Glancing(), true, Start(Glancing()), n)
  {
    hide Glancing, Out, Thick, IsFirst, Sight, SolidAt, BricksExact, OnlySolid, Proper, OccludedFrom, Start, StartCell,
         Slanted, Manhattan, InGrid, AllOnWay, BrickOf, Near, Far, JumpsFirst, FirstJump;
    var r := Glancing();
    GlancingCells();
    GlancingFacts();
    GlancingTurn();
    v, bricks := SceneOf({SOURCE, CORNER});
    SizesOf(v, bricks);
    AboveIsFree(v, CORNER);
    GlancingSight(v, w);
    GlancingSight(v, 0.0);
    FirstIsSeen(v, r, CORNER);
    assert SeenWithin(v, r, ABOVE, n);
    SteppingSeesExactly(v, bricks, r, n);
    GlancingJumpsFirst(v, bricks);
    OnlyAreSolid(v, SOURCE, CORNER);
    NothingAfterJump(v, bricks, r, n);
  }

  // ------------------------------------------------------------------------------------------
  // The exact conditions
  // ------------------------------------------------------------------------------------------

  // In every scene whose solid cells are all crossed for more than w, n turns of a shadow ray from
  // an empty cell find the same with and without jumping; the cell lies in the grid if `inside`.
  ghost predicate ShadowsAreSafe(n: nat, w: real, inside: bool) {
    forall v, bricks, r ::
      && BricksExact(v, bricks) && Proper(r) && Slanted(r) && Thick(v, r, w) && !SolidAt(v, StartCell(r.p))
      && (inside ==> InGrid(StartCell(r.p))) ==>
        OccludedFrom(v, bricks, r, false, Start(r), n) == OccludedFrom(v, bricks, r, true, Start(r), n)
  }

  // Shadows are safe if and only if there is no turn to be made at all, or the turns reach from one
  // corner of the grid to the other and no cell may be as thin as the nudge.
  lemma ShadowsAreSafeExactly(n: nat, w: real, inside: bool)
    requires 0.0 <= w < 1.0
    ensures ShadowsAreSafe(n, w, inside) <==> n == 0 || (n >= AmpleTurns(inside) && w >= NUDGE)
  {
    hide Proper, Slanted, Thick, OccludedFrom, Long, Glancing, Beside, BrickSolid, Start, StartCell, SolidAt;
    if n == 0 {
      NoTurnAgrees();
    } else if n < AMPLE - 1 {
      var v, bricks := LongShadowDisagrees(n, w);
    } else if n < AmpleTurns(inside) {
      var v, bricks := BesideDisagrees(n, w);
    } else if w < NUDGE {
      var v, bricks := GlancingShadowDisagrees(n, w);
    } else {
      forall v, bricks, r |
        && BricksExact(v, bricks) && Proper(r) && Slanted(r) && Thick(v, r, w) && !SolidAt(v, StartCell(r.p))
        && (inside ==> InGrid(StartCell(r.p)))
        ensures OccludedFrom(v, bricks, r, false, Start(r), n) == OccludedFrom(v, bricks, r, true, Start(r), n)
      {
        Thicker(v, bricks, r, w, NUDGE);
        AmpleShadowsAgree(v, bricks, r, n, inside);
      }
    }
  }

  lemma NoTurnAgrees()
    ensures forall v, bricks, r, s, skip :: VoxelSized(v) && BrickSized(bricks) && Slanted(r) ==>
      !OccludedFrom(v, bricks, r, skip, s, 0)
  {
  }
}
