// Exactly when jumping over empty bricks leaves what the shader's rays find alone.
module SkipLimits {
  import opened Grid
  import opened Vectors
  import opened Rays
  import opened Bricks
  import opened SkipTrace

  // ------------------------------------------------------------------------------------------
  // Scenes with a few solid cells
  // ------------------------------------------------------------------------------------------

  ghost predicate OnlySolid(v: seq<Word>, solids: set<Cell>)
    requires VoxelSized(v)
  {
    forall c :: SolidAt(v, c) <==> c in solids
  }

  // There is such a scene, with an exact brick index.
  lemma SceneOf(solids: set<Cell>) returns (v: seq<Word>, bricks: seq<Word>)
    requires forall c <- solids :: InGrid(c)
    ensures BricksExact(v, bricks) && OnlySolid(v, solids)
  {
    v := seq(VOXELS, i requires 0 <= i < VOXELS => if Unflat(WORLD_DIM, i) in solids then 1 else 0);
    forall c | InGrid(c)
      ensures Peek(v, WORLD_DIM, c) == if c in solids then 1 else 0
    {
      FlatBack(WORLD_DIM, c);
    }
    bricks := seq(BRICK_GRID * BRICK_GRID * BRICK_GRID, i requires 0 <= i < BRICK_GRID * BRICK_GRID * BRICK_GRID =>
      if BrickSolid(v, Unflat(BRICK_GRID, i)) then 1 else 0);
    forall b | InCube(BRICK_GRID, b)
      ensures Peek(bricks, BRICK_GRID, b) == if BrickSolid(v, b) then 1 else 0
    {
      FlatBack(BRICK_GRID, b);
    }
  }

  lemma FlatBack(dim: nat, c: Cell)
    requires InCube(dim, c)
    ensures 0 <= Flat(dim, c) < dim * dim * dim && Unflat(dim, Flat(dim, c)) == c
  {
    FlatBound(dim, c);
    FlatSurjective(dim, Flat(dim, c));
    FlatInjective(dim, c, Unflat(dim, Flat(dim, c)));
  }

  // ------------------------------------------------------------------------------------------
  // How many jumps it takes
  // ------------------------------------------------------------------------------------------

  // Ahead of c0 no brick but the one of cell e holds anything solid.
  ghost predicate ClearButFor(v: seq<Word>, c0: Cell, d: Vec3, e: Cell)
    requires VoxelSized(v)
  {
    forall c :: SolidAt(v, c) && AllOnWay(BrickOf(c0), d, BrickOf(c)) ==> BrickOf(c) == BrickOf(e)
  }

  // Most steps between two cells of a brick.
  const WITHIN_BRICK: nat := 3 * (BRICK_DIM - 1)

  // The corner of a cell's brick that a ray comes from.
  function NearCorner(e: Cell, d: Vec3): Cell {
    Cell(NearSide(e.x, d.x), NearSide(e.y, d.y), NearSide(e.z, d.z))
  }

  function NearSide(v: int, d: real): int {
    v / BRICK_DIM * BRICK_DIM + if d > 0.0 then 0 else BRICK_DIM - 1
  }

  function StepsIn(e: Cell, d: Vec3): nat {
    Manhattan(e, NearCorner(e, d))
  }

  lemma StepsInBound(e: Cell, d: Vec3)
    ensures StepsIn(e, d) <= WITHIN_BRICK
  {
  }

  lemma BricksOnWay(c: Cell, d: Vec3, e: Cell)
    requires AllOnWay(c, d, e)
    ensures AllOnWay(BrickOf(c), d, BrickOf(e))
    ensures NonZero(d) && BrickOf(c) == BrickOf(e) ==> Manhattan(e, c) <= StepsIn(e, d)
  {
  }

  // Going on to another brick brings a cell ahead nearer.
  lemma BricksNearer(c: Cell, d: Vec3, c': Cell, e: Cell)
    requires AllOnWay(c, d, c') && AllOnWay(c', d, e)
    ensures Manhattan(BrickOf(e), BrickOf(c')) <= Manhattan(BrickOf(e), BrickOf(c))
    ensures BrickOf(c') != BrickOf(c) ==> Manhattan(BrickOf(e), BrickOf(c')) < Manhattan(BrickOf(e), BrickOf(c))
  {
    BricksOnWay(c, d, c');
    BricksOnWay(c', d, e);
  }

  // A brick that is not empty is the one of e.
  lemma NonemptyIsLast(v: seq<Word>, bricks: seq<Word>, c0: Cell, d: Vec3, e: Cell, c: Cell)
    requires BricksExact(v, bricks) && ClearButFor(v, c0, d, e) && InGrid(c) && AllOnWay(c0, d, c)
    requires !BrickIsEmpty(bricks, c)
    ensures BrickOf(c) == BrickOf(e)
  {
    BrickInGrid(c);
    BricksOnWay(c0, d, c);
    var f :| InGrid(f) && BrickOf(f) == BrickOf(c) && Peek(v, WORLD_DIM, f) != 0;
    assert SolidAt(v, f);
  }

  // The march so far is the start of a march from the cell it is in.
  lemma StartsHere(v: seq<Word>, r: Ray, c0: Cell, s: Dda, t: real, k: nat)
    requires VoxelSized(v) && Slanted(r) && Marching(v, r, c0, s, t, k)
    ensures Marching(v, r, s.cell, s, t, 0)
  {
    hide Near, Far, SolidAt;
  }

  // Jumping takes a step for each brick on the way to e, and then a few within its brick.
  lemma {:induction false} JumpsReach(v: seq<Word>, bricks: seq<Word>, r: Ray, c0: Cell, s: Dda, t: real, k: nat,
                                      e: Cell, n: nat)
    requires BricksExact(v, bricks) && Slanted(r) && Thick(v, r, NUDGE) && Marching(v, r, c0, s, t, k)
    requires InGrid(c0) && Sight(v, r, e) && ClearButFor(v, c0, r.d, e)
    requires n > Manhattan(BrickOf(e), BrickOf(s.cell)) + StepsIn(e, r.d)
    ensures TraceFrom(v, bricks, r, true, s, n).Some?
    decreases n
  {
    hide Marching, Thick, Sight, SolidAt, ClearButFor, BricksExact, SkipStep, FineStep, Manhattan, AllOnWay,
         BrickIsEmpty, BrickOf, StepsIn;
    SizesOf(v, bricks);
    ThickEnough(v, r, NUDGE);
    AtFirst(v, r, c0, s, t, k);
    SightIsAhead(v, r, c0, s, t, k, e);
    if !InGrid(s.cell) {
      NothingBeyond(v, r, c0, s, t, k, c0, e);
    } else if !SolidAt(v, s.cell) {
      if BrickIsEmpty(bricks, s.cell) {
        var s' := SkipStep(r, s);
        SkipKeeps(v, bricks, r, c0, s, t, k);
        JumpAhead(r, s, t, v, c0, k);
        SightIsAhead(v, r, c0, s', s'.tEnter + NUDGE, k + 1, e);
        BricksNearer(s.cell, r.d, s'.cell, e);
        JumpsReach(v, bricks, r, c0, s', s'.tEnter + NUDGE, k + 1, e, n - 1);
      } else {
        NonemptyIsLast(v, bricks, c0, r.d, e, s.cell);
        BricksOnWay(s.cell, r.d, e);
        StartsHere(v, r, c0, s, t, k);
        TraceAnswers(v, bricks, r, true, s.cell, s, t, 0, n);
      }
    }
  }

  // The same for a shadow ray, which takes a step and a jump in each turn.
  lemma {:induction false} ShadowJumpsReach(v: seq<Word>, bricks: seq<Word>, r: Ray, c0: Cell, s: Dda, t: real, k: nat,
                                            e: Cell, n: nat)
    requires BricksExact(v, bricks) && Slanted(r) && Thick(v, r, NUDGE) && Marching(v, r, c0, s, t, k)
    requires InGrid(c0) && InGrid(s.cell) && !SolidAt(v, s.cell) && Sight(v, r, e) && ClearButFor(v, c0, r.d, e)
    requires n > Manhattan(BrickOf(e), BrickOf(s.cell)) + StepsIn(e, r.d) + 1
    ensures OccludedFrom(v, bricks, r, true, s, n)
    decreases n
  {
    hide Marching, Thick, Sight, SolidAt, ClearButFor, BricksExact, SkipStep, FineStep, Manhattan, AllOnWay,
         BrickIsEmpty, BrickOf, StepsIn;
    var s1 := FineStep(r, s);
    var t1 := s1.tEnter;
    SizesOf(v, bricks);
    ThickEnough(v, r, NUDGE);
    FineKeeps(v, r, c0, s, t, k);
    FineMoves(r, s, s.cell);
    SightIsAhead(v, r, c0, s1, t1, k + 1, e);
    AtFirst(v, r, c0, s1, t1, k + 1);
    BricksNearer(s.cell, r.d, s1.cell, e);
    if !InGrid(s1.cell) {
      NothingBeyond(v, r, c0, s1, t1, k + 1, c0, e);
    } else if !SolidAt(v, s1.cell) {
      if BrickIsEmpty(bricks, s1.cell) {
        ShadowJump(v, bricks, r, c0, s, s1, t1, k + 1, e, n);
      } else {
        NonemptyIsLast(v, bricks, c0, r.d, e, s1.cell);
        BricksOnWay(s1.cell, r.d, e);
        StartsHere(v, r, c0, s1, t1, k + 1);
        OccludedAnswers(v, bricks, r, true, s1.cell, s1, t1, 0, n - 1);
      }
    }
  }

  lemma ShadowJump(v: seq<Word>, bricks: seq<Word>, r: Ray, c0: Cell, s: Dda, s1: Dda, t1: real, k: nat, e: Cell,
                   n: nat)
    requires BricksExact(v, bricks) && Slanted(r) && Thick(v, r, NUDGE) && Marching(v, r, c0, s1, t1, k)
    requires InGrid(c0) && Sight(v, r, e) && ClearButFor(v, c0, r.d, e)
    requires s1 == FineStep(r, s) && InGrid(s1.cell) && !SolidAt(v, s1.cell) && BrickIsEmpty(bricks, s1.cell)
    requires n > Manhattan(BrickOf(e), BrickOf(s1.cell)) + StepsIn(e, r.d) + 1
    ensures OccludedFrom(v, bricks, r, true, s, n)
    decreases n, 0
  {
    hide Marching, Thick, Sight, SolidAt, ClearButFor, BricksExact, SkipStep, FineStep, Manhattan, AllOnWay,
         BrickIsEmpty, BrickOf, StepsIn;
    var s2 := SkipStep(r, s1);
    var t2 := s2.tEnter + NUDGE;
    SizesOf(v, bricks);
    ThickEnough(v, r, NUDGE);
    SkipKeeps(v, bricks, r, c0, s1, t1, k);
    JumpAhead(r, s1, t1, v, c0, k);
    SightIsAhead(v, r, c0, s2, t2, k + 1, e);
    AtFirst(v, r, c0, s2, t2, k + 1);
    BricksNearer(s1.cell, r.d, s2.cell, e);
    if !InGrid(s2.cell) {
      NothingBeyond(v, r, c0, s2, t2, k + 1, c0, e);
    } else if !SolidAt(v, s2.cell) {
      ShadowJumpsReach(v, bricks, r, c0, s2, t2, k + 1, e, n - 1);
    }
  }

  // Stepping finds nothing further away than it has steps.
  lemma {:induction false} ShadowReach(v: seq<Word>, bricks: seq<Word>, r: Ray, c0: Cell, s: Dda, n: nat)
    requires VoxelSized(v) && BrickSized(bricks) && Slanted(r) && AllOnWay(c0, r.d, s.cell)
    ensures OccludedFrom(v, bricks, r, false, s, n) ==>
      exists e :: SolidAt(v, e) && AllOnWay(c0, r.d, e) && Manhattan(e, c0) <= Manhattan(s.cell, c0) + n
    decreases n
  {
    hide Manhattan, FineStep, SolidAt, AllOnWay;
    if n > 0 {
      FineMoves(r, s, c0);
      ShadowReach(v, bricks, r, c0, FineStep(r, s), n - 1);
    }
  }

  // ------------------------------------------------------------------------------------------
  // A budget that stepping uses up and jumping does not
  // ------------------------------------------------------------------------------------------

  // From the first cell of the grid to the last one, through the cells (m, m, m).
  function Long(): Ray {
    Ray(Vec3(1.0 / 2.0, 1.0 / 2.0, 23.0 / 44.0), Vec3(330.0 / 571.0, 330.0 / 571.0, 329.0 / 571.0), UP)
  }

  // A ray as the shader marches it: no component is zero, and the direction has length 1.
  ghost predicate Proper(r: Ray) {
    Slanted(r) && Dot(r.d, r.d) == 1.0
  }

  function Diagonal(m: nat): Cell {
    Cell(m, m, m)
  }

  lemma LongFacts()
    ensures Proper(Long()) && Slanted(Long()) && StartCell(Long().p) == Diagonal(0) && InGrid(Diagonal(0))
  {
  }

  // Every cell of the diagonal is crossed for more than one unit of time.
  lemma LongTimes(m: nat)
    requires m < WORLD_DIM
    ensures Slanted(Long()) && Far(Long(), Diagonal(m)) - Near(Long(), Diagonal(m)) > 1.0
    ensures Far(Long(), Diagonal(m)) > 0.0
  {
    var c := Diagonal(m);
    var x, z := (m as real - 1.0 / 2.0) * 571.0 / 330.0, (m as real - 23.0 / 44.0) * 571.0 / 329.0;
    assert EnterTimes(Long(), c) == Vec3(x, x, z);
    assert LeaveTimes(Long(), c) == Vec3(x + 571.0 / 330.0, x + 571.0 / 330.0, z + 571.0 / 329.0);
    hide EnterTimes, LeaveTimes;
  }

  lemma LongSight(v: seq<Word>, m: nat, w: real)
    requires VoxelSized(v) && 0 < m < WORLD_DIM && OnlySolid(v, {Diagonal(m)}) && w < 1.0
    ensures Slanted(Long()) && Thick(v, Long(), w) && IsFirst(v, Long(), Diagonal(m)) && !SolidAt(v, Diagonal(0))
  {
    LongTimes(m);
    hide Near, Far, SolidAt;
  }

  // The first jump lands in the cell (8, 8, 8).
  lemma LongJump()
    ensures Slanted(Long()) && SkipStep(Long(), Start(Long())).cell == Diagonal(BRICK_DIM)
  {
    LongFacts();
    assert BrickSkipT(Long(), Diagonal(0)) == 571.0 / 44.0;
    var t := 571.0 / 44.0 + NUDGE;
    assert CellAtTime(Long(), t) == Diagonal(8);
  }

  // A brick without one of the solid cells is empty.
  lemma OtherBricksEmpty(v: seq<Word>, bricks: seq<Word>, solids: set<Cell>, c: Cell)
    requires BricksExact(v, bricks) && OnlySolid(v, solids) && InGrid(c)
    requires forall e <- solids :: BrickOf(e) != BrickOf(c)
    ensures BrickIsEmpty(bricks, c)
  {
    BrickInGrid(c);
    hide BrickOf, Peek;
    forall f | InGrid(f) && BrickOf(f) == BrickOf(c)
      ensures Peek(v, WORLD_DIM, f) == 0
    {
      assert f !in solids && !SolidAt(v, f);
    }
  }

  lemma AloneAhead(v: seq<Word>, c0: Cell, d: Vec3, e: Cell)
    requires VoxelSized(v) && OnlySolid(v, {e})
    ensures ClearButFor(v, c0, d, e)
  {
    hide SolidAt, BrickOf;
  }

  // A cell of the diagonal for each budget, which jumping reaches and stepping does not.
  function OutOfReach(n: nat): nat {
    if n <= 24 then 8 else if n <= 45 then 15 else if n <= 69 then 23 else 127
  }

  // From an empty start jumping reaches a cell that is the only solid one ahead.
  lemma JumpingFinds(v: seq<Word>, bricks: seq<Word>, r: Ray, e: Cell, n: nat)
    requires BricksExact(v, bricks) && Slanted(r) && Thick(v, r, NUDGE) && IsFirst(v, r, e)
    requires InGrid(StartCell(r.p)) && !SolidAt(v, StartCell(r.p)) && ClearButFor(v, StartCell(r.p), r.d, e)
    requires n > Manhattan(BrickOf(e), BrickOf(StartCell(r.p))) + StepsIn(e, r.d)
    ensures Trace(v, bricks, r, true, n).Some?
  {
    ThickEnough(v, r, NUDGE);
    MarchStarts(v, r);
    hide Marching, Thick, Sight, SolidAt, ClearButFor, BricksExact, StartCell, Manhattan, BrickOf, Start;
    StartIs(r);
    JumpsReach(v, bricks, r, StartCell(r.p), Start(r), 0.0, 0, e, n);
  }

  lemma StartIs(r: Ray)
    requires Slanted(r)
    ensures Start(r).cell == StartCell(r.p)
  {
  }

  // Stepping does not, if the cell is too far away.
  lemma SteppingMisses(v: seq<Word>, bricks: seq<Word>, r: Ray, e: Cell, n: nat)
    requires BricksExact(v, bricks) && Slanted(r) && Thick(v, r, 0.0) && IsFirst(v, r, e)
    requires InGrid(StartCell(r.p)) && !SolidAt(v, StartCell(r.p)) && Manhattan(e, StartCell(r.p)) >= n
    ensures Trace(v, bricks, r, false, n) == None
  {
    FineFindsWithinBudget(v, bricks, r, n, e);
    hide Thick, IsFirst, SolidAt, BricksExact, StartCell, Manhattan, Trace;
  }

  lemma LongReached(v: seq<Word>, bricks: seq<Word>, n: nat)
    requires BricksExact(v, bricks) && 2 <= n < AMPLE && OnlySolid(v, {Diagonal(OutOfReach(n))})
    ensures Slanted(Long()) && Trace(v, bricks, Long(), true, n).Some?
  {
    hide Long, Thick, IsFirst, SolidAt, ClearButFor, BricksExact, OnlySolid, Slanted, Proper, Trace, StartCell;
    var m := OutOfReach(n);
    SizesOf(v, bricks);
    LongFacts();
    LongSight(v, m, NUDGE);
    if m == 8 {
      LongNext(v, bricks, n);
    } else {
      LongBricks(m);
      AloneAhead(v, Diagonal(0), Long().d, Diagonal(m));
      StepsInBound(Diagonal(m), Long().d);
      JumpingFinds(v, bricks, Long(), Diagonal(m), n);
    }
  }

  lemma LongNext(v: seq<Word>, bricks: seq<Word>, n: nat)
    requires BricksExact(v, bricks) && n >= 2 && OnlySolid(v, {Diagonal(8)})
    ensures Slanted(Long()) && Trace(v, bricks, Long(), true, n).Some?
  {
    hide Long, Thick, IsFirst, SolidAt, BricksExact, OnlySolid, Proper, Start, TraceFrom, SkipStep, StartCell,
         BrickIsEmpty, Slanted;
    SizesOf(v, bricks);
    LongFacts();
    LongSight(v, 8, NUDGE);
    LongJump();
    LongBricks(8);
    OtherBricksEmpty(v, bricks, {Diagonal(8)}, Diagonal(0));
    OnlyIsSolid(v, Diagonal(8));
    StartIs(Long());
    FoundNext(v, bricks, Long(), Start(Long()), n);
  }

  lemma LongBricks(m: nat)
    requires BRICK_DIM <= m < WORLD_DIM
    ensures Manhattan(BrickOf(Diagonal(m)), BrickOf(Diagonal(0))) == 3 * (m / BRICK_DIM)
    ensures Manhattan(Diagonal(m), Diagonal(0)) == 3 * m && BrickOf(Diagonal(m)) != BrickOf(Diagonal(0))
  {
  }

  // A solid cell that the first jump lands in.
  lemma FoundNext(v: seq<Word>, bricks: seq<Word>, r: Ray, s: Dda, n: nat)
    requires VoxelSized(v) && BrickSized(bricks) && Slanted(r) && n >= 2
    requires InGrid(s.cell) && !SolidAt(v, s.cell) && BrickIsEmpty(bricks, s.cell)
    requires SkipStep(r, s).cell != s.cell && SolidAt(v, SkipStep(r, s).cell)
    ensures var s' := SkipStep(r, s); TraceFrom(v, bricks, r, true, s, n) == Some(Hit(s'.cell, s'.tEnter, s'.nrm))
  {
    hide SkipStep, BrickIsEmpty;
  }

  // For every budget in between there is a scene in which the traces disagree.
  lemma LongDisagrees(n: nat, w: real) returns (v: seq<Word>, bricks: seq<Word>)
    requires 2 <= n < AMPLE && w < 1.0
    ensures BricksExact(v, bricks) && Proper(Long()) && Slanted(Long()) && Thick(v, Long(), w)
    ensures !Agree(Trace(v, bricks, Long(), false, n), Trace(v, bricks, Long(), true, n))
  {
    hide Long, OnlySolid, Thick, SolidAt, BricksExact, Trace, Manhattan, IsFirst, StartCell, Proper, Slanted, BrickOf;
    var m := OutOfReach(n);
    LongBricks(m);
    LongFacts();
    assert InGrid(Diagonal(m));
    v, bricks := SceneOf({Diagonal(m)});
    SizesOf(v, bricks);
    LongSight(v, m, w);
    LongSight(v, m, 0.0);
    LongReached(v, bricks, n);
    SteppingMisses(v, bricks, Long(), Diagonal(m), n);
  }

  lemma OnlyIsSolid(v: seq<Word>, e: Cell)
    requires VoxelSized(v) && OnlySolid(v, {e})
    ensures forall c :: SolidAt(v, c) <==> c == e
  {
  }

  // ------------------------------------------------------------------------------------------
  // Rays cast from a surface: bounce rays, and shadow rays
  // ------------------------------------------------------------------------------------------

  // How far off its surface a ray starts.
  const OFFSET: real := 0.02

  predicate InClosed(c: Cell, p: Vec3) {
    && c.x as real <= p.x <= c.x as real + 1.0
    && c.y as real <= p.y <= c.y as real + 1.0
    && c.z as real <= p.z <= c.z as real + 1.0
  }

  // One of the six face normals.
  predicate IsNormal(n: Cell) {
    || n == Cell(1, 0, 0) || n == Cell(-1, 0, 0) || n == Cell(0, 1, 0)
    || n == Cell(0, -1, 0) || n == Cell(0, 0, 1) || n == Cell(0, 0, -1)
  }

  function Next(c: Cell, nrm: Cell): Cell {
    Cell(c.x + nrm.x, c.y + nrm.y, c.z + nrm.z)
  }

  function Lifted(hp: Vec3, nrm: Cell): Vec3 {
    Vec3(hp.x + nrm.x as real * OFFSET, hp.y + nrm.y as real * OFFSET, hp.z + nrm.z as real * OFFSET)
  }

  // A ray from the point hp of the face with normal nrm of the solid cell q, out into the open.
  ghost predicate CastFrom(v: seq<Word>, q: Cell, nrm: Cell, hp: Vec3, dir: Vec3)
    requires VoxelSized(v)
  {
    && IsNormal(nrm) && SolidAt(v, q) && InGrid(Next(q, nrm)) && !SolidAt(v, Next(q, nrm))
    && InClosed(q, hp) && InClosed(Next(q, nrm), hp)
    && Dot(dir, dir) == 1.0 && Dot(dir, Vec3(nrm.x as real, nrm.y as real, nrm.z as real)) > 0.0
  }

  // The ray that the tracer marches along.
  predicate Marches(ro: Vec3, dir: Vec3, r: Ray) {
    Entry(ro, DeZeroed(dir)) == Some(r)
  }

  lemma TracedAlong(v: seq<Word>, bricks: seq<Word>, ro: Vec3, dir: Vec3, r: Ray, skip: bool, n: nat)
    requires VoxelSized(v) && BrickSized(bricks) && Marches(ro, dir, r)
    ensures Slanted(r) && Traced(v, bricks, ro, dir, skip, n) == Trace(v, bricks, r, skip, n)
  {
    hide DeZeroed, Entry, Trace;
  }

  // Primary rays have steps enough: jumping does not change what they find.
  lemma PrimaryRaysAgree(v: seq<Word>, bricks: seq<Word>, ro: Vec3, dir: Vec3)
    requires BricksExact(v, bricks) && forall r :: Marches(ro, dir, r) && Slanted(r) ==> Thick(v, r, NUDGE)
    ensures Agree(Traced(v, bricks, ro, dir, false, 768), Traced(v, bricks, ro, dir, true, 768))
  {
    hide Entry, Trace, Thick, DeZeroed, BrickSolid;
    var entry := Entry(ro, DeZeroed(dir));
    if entry.Some? {
      var r := entry.value;
      assert Marches(ro, dir, r) && Slanted(r);
      AmpleBudgetAgrees(v, bricks, r, 768);
    }
  }

  // The examples all start from the top face of this cell, in this direction.
  const SOURCE := Cell(0, 0, 7)
  const TOP := Cell(0, 0, 1)
  const ABOVE := Cell(0, 0, 8)

  function Out(): Vec3 {
    Vec3(2.0 / 3.0, 2.0 / 3.0, 1.0 / 3.0)
  }

  lemma OutFacts()
    ensures Dot(Out(), Out()) == 1.0 && Out().x > 0.0 && Out().y > 0.0 && Out().z > 0.0
  {
  }

  lemma OutStays()
    ensures DeZeroed(Out()) == Out()
  {
  }

  lemma OutIsCast(v: seq<Word>, hp: Vec3, e: Cell)
    requires VoxelSized(v) && OnlySolid(v, {SOURCE, e}) && e != ABOVE
    requires hp.z == 8.0 && 0.0 <= hp.x <= 1.0 && 0.0 <= hp.y <= 1.0
    ensures CastFrom(v, SOURCE, TOP, hp, Out())
  {
    hide SolidAt, Dot, Out, OnlySolid, InClosed, IsNormal, InGrid, Next;
    OutFacts();
    DotTop(Out());
    OnlyAreSolid(v, SOURCE, e);
    OnTop(hp);
    TopCells();
    AboveInGrid();
  }

  lemma OnTop(hp: Vec3)
    requires hp.z == 8.0 && 0.0 <= hp.x <= 1.0 && 0.0 <= hp.y <= 1.0
    ensures InClosed(SOURCE, hp) && InClosed(ABOVE, hp)
  {
  }

  lemma TopCells()
    ensures Next(SOURCE, TOP) == ABOVE && IsNormal(TOP)
  {
  }

  lemma AboveInGrid()
    ensures InGrid(ABOVE)
  {
  }

  lemma DotTop(d: Vec3)
    ensures Dot(d, Vec3(TOP.x as real, TOP.y as real, TOP.z as real)) == d.z
  {
  }

  // In a scene of the source and a cell ahead of it, a ray that has left the source behind meets
  // that cell first, if it meets it at all.
  lemma FirstAhead(v: seq<Word>, r: Ray, e: Cell, w: real)
    requires VoxelSized(v) && OnlySolid(v, {SOURCE, e}) && Slanted(r) && Far(r, SOURCE) < 0.0 && 0.0 < Far(r, e)
    requires 0.0 <= w < Far(r, e) - Near(r, e)
    ensures Thick(v, r, w) && IsFirst(v, r, e)
  {
    hide Near, Far, SolidAt;
    assert SolidAt(v, e);
  }

  lemma SourceIsBehind(v: seq<Word>, d: Vec3, e: Cell)
    requires VoxelSized(v) && OnlySolid(v, {SOURCE, e}) && d.z > 0.0
    ensures ClearButFor(v, ABOVE, d, e)
  {
    assert !AllOnWay(BrickOf(ABOVE), d, BrickOf(SOURCE));
    hide SolidAt, BrickOf;
  }

  // ------------------------------------------------------------------------------------------
  // With 256 steps jumping can find what stepping does not
  // ------------------------------------------------------------------------------------------

  const DISTANT := Cell(120, 120, 67)
  const MIDDLE := Vec3(0.5, 0.5, 8.0)

  function Bounce(): Ray {
    Ray(Vec3(751.0 / 1500.0, 751.0 / 1500.0, 24061.0 / 3000.0), Out(), UP)
  }

  function Shadow(): Ray {
    Ray(Vec3(1.0 / 2.0, 1.0 / 2.0, 401.0 / 50.0), Out(), UP)
  }

  lemma DistantCells()
    ensures InGrid(SOURCE) && InGrid(ABOVE) && InGrid(DISTANT) && DISTANT != ABOVE && SOURCE != ABOVE
    ensures Manhattan(DISTANT, ABOVE) == 299 && Manhattan(BrickOf(DISTANT), BrickOf(ABOVE)) == 37
  {
  }

  lemma BounceFacts()
    ensures Proper(Bounce()) && Slanted(Bounce()) && StartCell(Bounce().p) == ABOVE && Bounce().d == Out()
    ensures Far(Bounce(), SOURCE) < 0.0
    ensures Far(Bounce(), DISTANT) > 0.0 && Far(Bounce(), DISTANT) - Near(Bounce(), DISTANT) > 0.5
  {
    assert LeaveTimes(Bounce(), SOURCE).z == -0.061;
    assert EnterTimes(Bounce(), DISTANT) == Vec3(179.249, 179.249, 176.939);
    assert LeaveTimes(Bounce(), DISTANT) == Vec3(180.749, 180.749, 179.939);
  }

  lemma BounceMarches()
    ensures Marches(Lifted(MIDDLE, TOP), Out(), Bounce())
  {
    MiddleLifted();
    BounceStart();
    OutStays();
    OutFacts();
    hide DeZeroed, Lifted, Out, Along, Entry;
    EntryFromInside(Lifted(MIDDLE, TOP), Out());
  }

  lemma MiddleLifted()
    ensures Lifted(MIDDLE, TOP) == Vec3(0.5, 0.5, 8.02)
    ensures MIDDLE.z == 8.0 && 0.0 <= MIDDLE.x <= 1.0 && 0.0 <= MIDDLE.y <= 1.0
  {
  }

  lemma BounceStart()
    ensures Bounce() == Ray(Vec3(Along(0.5, Out().x, ENTRY_NUDGE), Along(0.5, Out().y, ENTRY_NUDGE),
                                 Along(8.02, Out().z, ENTRY_NUDGE)), Out(), UP)
  {
  }

  // From inside the grid the march starts next to the origin.
  lemma EntryFromInside(ro: Vec3, rd: Vec3)
    requires NonZero(rd)
    requires 0.0 < ro.x < 128.0 && 0.0 < ro.y < 128.0 && 0.0 < ro.z < 128.0
    ensures Entry(ro, rd) ==
      Some(Ray(Vec3(Along(ro.x, rd.x, ENTRY_NUDGE), Along(ro.y, rd.y, ENTRY_NUDGE), Along(ro.z, rd.z, ENTRY_NUDGE)),
               rd, UP))
  {
    SideTimes(ro.x, rd.x);
    SideTimes(ro.y, rd.y);
    SideTimes(ro.z, rd.z);
    hide Along;
  }

  lemma SideTimes(p: real, d: real)
    requires d != 0.0 && 0.0 < p < 128.0
    ensures var t0, t1 := (0.0 - p) / d, (128.0 - p) / d; MinR(t0, t1) < 0.0 < MaxR(t0, t1)
  {
    Quotients(0.0 - p, 0.0, d);
    Quotients(0.0, 128.0 - p, d);
    assert 0.0 / d == 0.0;
  }

  // A bounce ray off a face, as the shader casts it, for which the image is not the same: the
  // voxel it hits is crossed for half a unit and more, and only jumping gets there.
  lemma BounceRaysCanDisagree() returns (v: seq<Word>, bricks: seq<Word>)
    ensures BricksExact(v, bricks) && CastFrom(v, SOURCE, TOP, MIDDLE, Out())
    ensures Marches(Lifted(MIDDLE, TOP), Out(), Bounce()) && Slanted(Bounce()) && Thick(v, Bounce(), 0.5)
    ensures Traced(v, bricks, Lifted(MIDDLE, TOP), Out(), false, 256) == None
    ensures Traced(v, bricks, Lifted(MIDDLE, TOP), Out(), true, 256).Some?
  {
    hide Out, Bounce, Lifted, DeZeroed, Entry, Slanted, Proper, Thick, IsFirst, SolidAt, OnlySolid, ClearButFor,
         CastFrom, Traced, Trace, Marches, StartCell, Manhattan, BrickOf, InGrid, Near, Far, Dot, BricksExact;
    DistantCells();
    BounceFacts();
    BounceMarches();
    MiddleLifted();
    OutFacts();
    v, bricks := SceneOf({SOURCE, DISTANT});
    SizesOf(v, bricks);
    OutIsCast(v, MIDDLE, DISTANT);
    FirstAhead(v, Bounce(), DISTANT, 0.5);
    ThickEnough(v, Bounce(), 0.5);
    Thicker(v, bricks, Bounce(), 0.5, NUDGE);
    AboveIsFree(v, DISTANT);
    SourceIsBehind(v, Out(), DISTANT);
    TracedAlong(v, bricks, Lifted(MIDDLE, TOP), Out(), Bounce(), false, 256);
    TracedAlong(v, bricks, Lifted(MIDDLE, TOP), Out(), Bounce(), true, 256);
    StepsInBound(DISTANT, Out());
    JumpingFinds(v, bricks, Bounce(), DISTANT, 256);
    SteppingMisses(v, bricks, Bounce(), DISTANT, 256);
  }

  lemma AboveIsFree(v: seq<Word>, e: Cell)
    requires VoxelSized(v) && OnlySolid(v, {SOURCE, e}) && e != ABOVE
    ensures !SolidAt(v, ABOVE)
  {
  }

  lemma ShadowFacts()
    ensures Proper(Shadow()) && Slanted(Shadow()) && StartCell(Shadow().p) == ABOVE && Shadow().d == Out()
    ensures Shadow() == Ray(Lifted(MIDDLE, TOP), DeZeroed(Out()), UP) && Far(Shadow(), SOURCE) < 0.0
    ensures Far(Shadow(), DISTANT) > 0.0 && Far(Shadow(), DISTANT) - Near(Shadow(), DISTANT) > 0.5
  {
    assert LeaveTimes(Shadow(), SOURCE).z == -0.06;
    assert EnterTimes(Shadow(), DISTANT) == Vec3(179.25, 179.25, 176.94);
    assert LeaveTimes(Shadow(), DISTANT) == Vec3(180.75, 180.75, 179.94);
  }

  lemma ShadowFound(v: seq<Word>, bricks: seq<Word>, r: Ray, e: Cell, n: nat)
    requires BricksExact(v, bricks) && Slanted(r) && Thick(v, r, NUDGE) && IsFirst(v, r, e)
    requires InGrid(StartCell(r.p)) && !SolidAt(v, StartCell(r.p)) && ClearButFor(v, StartCell(r.p), r.d, e)
    requires n > Manhattan(BrickOf(e), BrickOf(StartCell(r.p))) + WITHIN_BRICK + 1
    ensures OccludedFrom(v, bricks, r, true, Start(r), n)
  {
    ThickEnough(v, r, NUDGE);
    MarchStarts(v, r);
    hide Marching, Thick, Sight, SolidAt, ClearButFor, BricksExact, StartCell, Manhattan, BrickOf, Start;
    StartIs(r);
    StepsInBound(e, r.d);
    ShadowJumpsReach(v, bricks, r, StartCell(r.p), Start(r), 0.0, 0, e, n);
  }

  lemma ShadowMissed(v: seq<Word>, bricks: seq<Word>, r: Ray, e: Cell, n: nat)
    requires VoxelSized(v) && BrickSized(bricks) && Slanted(r) && OnlySolid(v, {SOURCE, e})
    requires StartCell(r.p) == ABOVE && r.d.z > 0.0 && Manhattan(e, ABOVE) > n
    ensures !OccludedFrom(v, bricks, r, false, Start(r), n)
  {
    hide Slanted, SolidAt, StartCell, Start, Manhattan, AllOnWay, OccludedFrom, OnlySolid;
    SourceNotAhead(r.d);
    StartIs(r);
    OnlyAreSolid(v, SOURCE, e);
    ShadowReach(v, bricks, r, ABOVE, Start(r), n);
  }

  lemma SourceNotAhead(d: Vec3)
    requires d.z > 0.0
    ensures !AllOnWay(ABOVE, d, SOURCE) && Manhattan(ABOVE, ABOVE) == 0 && AllOnWay(ABOVE, d, ABOVE)
  {
  }

  // The same for a shadow ray: with jumping the point lies in the shadow, without it does not.
  lemma ShadowRaysCanDisagree() returns (v: seq<Word>, bricks: seq<Word>)
    ensures BricksExact(v, bricks) && CastFrom(v, SOURCE, TOP, MIDDLE, Out())
    ensures Slanted(Shadow()) && Shadow() == Ray(Lifted(MIDDLE, TOP), DeZeroed(Out()), UP) && Thick(v, Shadow(), 0.5)
    ensures !Occluded(v, bricks, Lifted(MIDDLE, TOP), Out(), false, 256)
    ensures Occluded(v, bricks, Lifted(MIDDLE, TOP), Out(), true, 256)
  {
    hide Long, Out, Shadow, Lifted, DeZeroed, Slanted, Proper, Thick, IsFirst, SolidAt, OnlySolid, ClearButFor,
         CastFrom, OccludedFrom, Start, StartCell, Manhattan, BrickOf, InGrid, Near, Far, Dot, BricksExact;
    DistantCells();
    ShadowFacts();
    MiddleLifted();
    OutFacts();
    v, bricks := SceneOf({SOURCE, DISTANT});
    SizesOf(v, bricks);
    OutIsCast(v, MIDDLE, DISTANT);
    FirstAhead(v, Shadow(), DISTANT, 0.5);
    Thicker(v, bricks, Shadow(), 0.5, NUDGE);
    AboveIsFree(v, DISTANT);
    SourceIsBehind(v, Out(), DISTANT);
    ShadowFound(v, bricks, Shadow(), DISTANT, 256);
    ShadowMissed(v, bricks, Shadow(), DISTANT, 256);
  }

  // ------------------------------------------------------------------------------------------
  // A solid cell crossed for exactly the nudge is jumped over
  // ------------------------------------------------------------------------------------------

  // The ray leaves its first brick through an x face, and is in the corner cell for 0.0005 until
  // it goes on into the cell above.
  const CORNER := Cell(8, 7, 11)
  const PAST := Cell(8, 8, 11)

  function AsidePoint(): Vec3 {
    Vec3(1.0 / 2.0, 1499.0 / 3000.0, 8.0)
  }

  function Glancing(): Ray {
    Ray(Vec3(751.0 / 1500.0, 1501.0 / 3000.0, 24061.0 / 3000.0), Out(), UP)
  }

  lemma GlancingFacts()
    ensures Proper(Glancing()) && Slanted(Glancing()) && StartCell(Glancing().p) == ABOVE && Glancing().d == Out()
    ensures Far(Glancing(), SOURCE) < 0.0
    ensures Near(Glancing(), CORNER) == 11.249 && Far(Glancing(), CORNER) == 11.249 + NUDGE
  {
    assert LeaveTimes(Glancing(), SOURCE).z == -0.061;
    assert EnterTimes(Glancing(), CORNER) == Vec3(11.249, 9.7495, 8.939);
    assert LeaveTimes(Glancing(), CORNER) == Vec3(12.749, 11.2495, 11.939);
  }

  lemma GlancingMarches()
    ensures Marches(Lifted(AsidePoint(), TOP), Out(), Glancing())
  {
    AsideLifted();
    GlancingStart();
    OutStays();
    OutFacts();
    hide DeZeroed, Lifted, Out, Along, Entry;
    EntryFromInside(Lifted(AsidePoint(), TOP), Out());
  }

  lemma AsideLifted()
    ensures Lifted(AsidePoint(), TOP) == Vec3(0.5, 1499.0 / 3000.0, 8.02)
    ensures AsidePoint().z == 8.0 && 0.0 <= AsidePoint().x <= 1.0 && 0.0 <= AsidePoint().y <= 1.0
  {
  }

  lemma GlancingStart()
    ensures Glancing() == Ray(Vec3(Along(0.5, Out().x, ENTRY_NUDGE), Along(1499.0 / 3000.0, Out().y, ENTRY_NUDGE),
                                   Along(8.02, Out().z, ENTRY_NUDGE)), Out(), UP)
  {
  }

  lemma GlancingJump()
    ensures Slanted(Glancing()) && SkipStep(Glancing(), Start(Glancing())).cell == PAST
  {
    GlancingFacts();
    assert BrickSkipT(Glancing(), ABOVE) == 11.249;
    assert CellAtTime(Glancing(), 11.249 + NUDGE) == PAST;
  }

  lemma GlancingSight(v: seq<Word>, w: real)
    requires VoxelSized(v) && OnlySolid(v, {SOURCE, CORNER}) && w >= 0.0
    ensures Slanted(Glancing()) && IsFirst(v, Glancing(), CORNER) && (Thick(v, Glancing(), w) <==> w < NUDGE)
  {
    GlancingFacts();
    hide Near, Far, SolidAt;
    assert SolidAt(v, CORNER);
  }

  // A march whose first jump leaves every solid cell behind finds nothing.
  lemma JumpsPast(v: seq<Word>, bricks: seq<Word>, r: Ray, n: nat)
    requires VoxelSized(v) && BrickSized(bricks) && Slanted(r) && InGrid(StartCell(r.p)) && !SolidAt(v, StartCell(r.p))
    requires BrickIsEmpty(bricks, StartCell(r.p)) && SkipStep(r, Start(r)).cell != StartCell(r.p)
    requires forall c :: SolidAt(v, c) ==> !AllOnWay(SkipStep(r, Start(r)).cell, r.d, c)
    ensures Trace(v, bricks, r, true, n) == None
  {
    StartIs(r);
    StartFits(r);
    hide SkipStep, BrickIsEmpty, SolidAt, TimesFit, During, FineStep, Start, StartCell;
    if n > 0 {
      var s', t' := StepAhead(bricks, r, true, Start(r), 0.0);
      TraceStaysAhead(v, bricks, r, true, s', t', n - 1);
    }
  }

  lemma StartFits(r: Ray)
    requires Slanted(r)
    ensures TimesFit(r, Start(r)) && During(r, StartCell(r.p), 0.0)
  {
    AtStart(r.p.x, r.d.x);
    AtStart(r.p.y, r.d.y);
    AtStart(r.p.z, r.d.z);
    hide EnterAt, LeaveAt, Edge;
  }

  lemma GlancingCells()
    ensures InGrid(SOURCE) && InGrid(CORNER) && InGrid(ABOVE) && CORNER != ABOVE
    ensures BrickOf(CORNER) != BrickOf(ABOVE) && BrickOf(SOURCE) != BrickOf(ABOVE) && Manhattan(CORNER, ABOVE) == 18
    ensures !AllOnWay(PAST, Glancing().d, CORNER) && !AllOnWay(PAST, Glancing().d, SOURCE)
  {
  }

  lemma GlancingMissed(v: seq<Word>, bricks: seq<Word>, n: nat)
    requires BricksExact(v, bricks) && OnlySolid(v, {SOURCE, CORNER})
    ensures Slanted(Glancing()) && Trace(v, bricks, Glancing(), true, n) == None
  {
    hide Glancing, Out, SolidAt, BricksExact, OnlySolid, Proper, Start, Trace, SkipStep, StartCell, BrickIsEmpty,
         Slanted, BrickOf, Manhattan, AllOnWay, InGrid, Near, Far;
    SizesOf(v, bricks);
    GlancingFacts();
    GlancingJump();
    GlancingCells();
    OtherBricksEmpty(v, bricks, {SOURCE, CORNER}, ABOVE);
    AboveIsFree(v, CORNER);
    OnlyAreSolid(v, SOURCE, CORNER);
    JumpsPast(v, bricks, Glancing(), n);
  }

  lemma OnlyAreSolid(v: seq<Word>, c: Cell, e: Cell)
    requires VoxelSized(v) && OnlySolid(v, {c, e})
    ensures forall f :: SolidAt(v, f) <==> f == c || f == e
  {
  }

  // However thick a cell may have to be, as long as that is less than the nudge, there is a scene
  // in which the traces disagree with any budget that reaches the cell.
  lemma GlancingDisagrees(n: nat, w: real) returns (v: seq<Word>, bricks: seq<Word>)
    requires n >= 19 && 0.0 <= w < NUDGE
    ensures BricksExact(v, bricks) && OnlySolid(v, {SOURCE, CORNER})
    ensures Proper(Glancing()) && Slanted(Glancing()) && Thick(v, Glancing(), w)
    ensures var a, b := Trace(v, bricks, Glancing(), false, n), Trace(v, bricks, Glancing(), true, n);
      a.Some? && a.value.cell == CORNER && b == None
  {
    hide Glancing, Out, Thick, IsFirst, SolidAt, BricksExact, OnlySolid, Proper, Trace, StartCell, Slanted, Manhattan,
         InGrid, AllOnWay, BrickOf, Near, Far;
    GlancingCells();
    GlancingFacts();
    v, bricks := SceneOf({SOURCE, CORNER});
    SizesOf(v, bricks);
    AboveIsFree(v, CORNER);
    GlancingSight(v, w);
    GlancingSight(v, 0.0);
    GlancingMissed(v, bricks, n);
    FineFindsWithinBudget(v, bricks, Glancing(), n, CORNER);
  }

  // A bounce ray off a face, with steps to spare, that finds the corner only without jumping.
  lemma ThinCornerIsJumpedOver() returns (v: seq<Word>, bricks: seq<Word>)
    ensures BricksExact(v, bricks) && CastFrom(v, SOURCE, TOP, AsidePoint(), Out())
    ensures var ro := Lifted(AsidePoint(), TOP);
      var a, b := Traced(v, bricks, ro, Out(), false, 256), Traced(v, bricks, ro, Out(), true, 256);
      a.Some? && a.value.cell == CORNER && b == None
  {
    hide Out, Glancing, AsidePoint, Lifted, DeZeroed, Entry, Slanted, Proper, Thick, IsFirst, SolidAt, OnlySolid,
         ClearButFor, CastFrom, Traced, Trace, Marches, StartCell, Manhattan, BrickOf, InGrid, Near, Far, Dot,
         BricksExact;
    GlancingCells();
    GlancingMarches();
    AsideLifted();
    v, bricks := GlancingDisagrees(256, 0.0);
    SizesOf(v, bricks);
    OutIsCast(v, AsidePoint(), CORNER);
    TracedAlong(v, bricks, Lifted(AsidePoint(), TOP), Out(), Glancing(), false, 256);
    TracedAlong(v, bricks, Lifted(AsidePoint(), TOP), Out(), Glancing(), true, 256);
  }

  // ------------------------------------------------------------------------------------------
  // Even where both find the same voxel, the normals can differ
  // ------------------------------------------------------------------------------------------

  lemma PastTimes()
    ensures Slanted(Glancing()) && Gentle(Glancing()) && Near(Glancing(), PAST) == 11.2495
    ensures Far(Glancing(), PAST) == 11.939
    ensures EnterTimes(Glancing(), PAST) == Vec3(11.249, 11.2495, 8.939)
    ensures Sign(Glancing().d.x) == 1 && Sign(Glancing().d.y) == 1 && Sign(Glancing().d.z) == 1
  {
    assert EnterTimes(Glancing(), PAST) == Vec3(11.249, 11.2495, 8.939);
    assert LeaveTimes(Glancing(), PAST) == Vec3(12.749, 12.7495, 11.939);
  }

  lemma JumpNormal()
    ensures Slanted(Glancing()) && SkipStep(Glancing(), Start(Glancing())).nrm == Cell(-1, 0, 0)
  {
    GlancingFacts();
    var r := Glancing();
    assert BrickFace(r.p.x, r.d.x, 0) == 11.249 && BrickFace(r.p.y, r.d.y, 0) == 11.2495
      && BrickFace(r.p.z, r.d.z, 8) == 23.939;
    hide BrickFace, Glancing;
    assert BrickNormal(r, ABOVE) == Cell(-Sign(r.d.x), 0, 0);
    PastTimes();
  }

  // What stepping reports for the cell past the corner: it was entered from below.
  lemma PastStepped(v: seq<Word>, bricks: seq<Word>, n: nat)
    requires BricksExact(v, bricks) && OnlySolid(v, {SOURCE, PAST}) && n >= 20
    ensures Slanted(Glancing())
    ensures var a := Trace(v, bricks, Glancing(), false, n);
      a.Some? && a.value.cell == PAST && a.value.nrm == Cell(0, -1, 0)
  {
    hide Glancing, Out, SolidAt, BricksExact, OnlySolid, Proper, Start, TraceFrom, StartCell, Slanted, Manhattan,
         InGrid, Near, Far, EnterTimes, Thick, IsFirst, During, TimesFit, Gentle, Sign;
    var r := Glancing();
    SizesOf(v, bricks);
    GlancingFacts();
    PastTimes();
    PastCells();
    AboveIsFree(v, PAST);
    FirstAhead(v, r, PAST, 0.5);
    ThickEnough(v, r, 0.5);
    FineFindsWithinBudget(v, bricks, r, n, PAST);
    StartIs(r);
    StartFits(r);
    NormalIsFace(v, bricks, r, false, Start(r), 0.0, n);
    FineTimeIsNear(v, bricks, r, Start(r), 0.0, n);
  }

  lemma PastCells()
    ensures InGrid(PAST) && InGrid(SOURCE) && InGrid(ABOVE) && PAST != ABOVE
    ensures BrickOf(PAST) != BrickOf(ABOVE) && BrickOf(SOURCE) != BrickOf(ABOVE) && Manhattan(PAST, ABOVE) == 19
  {
  }

  // What jumping reports: it was entered from the side.
  lemma PastJumped(v: seq<Word>, bricks: seq<Word>, n: nat)
    requires BricksExact(v, bricks) && OnlySolid(v, {SOURCE, PAST}) && n >= 2
    ensures Slanted(Glancing())
    ensures var b := Trace(v, bricks, Glancing(), true, n);
      b.Some? && b.value.cell == PAST && b.value.nrm == Cell(-1, 0, 0)
  {
    hide Glancing, Out, SolidAt, BricksExact, OnlySolid, Proper, Start, TraceFrom, StartCell, Slanted, BrickOf,
         BrickIsEmpty, InGrid, Manhattan, SkipStep, Near, Far;
    var r := Glancing();
    SizesOf(v, bricks);
    GlancingFacts();
    GlancingJump();
    JumpNormal();
    PastCells();
    AboveIsFree(v, PAST);
    OtherBricksEmpty(v, bricks, {SOURCE, PAST}, ABOVE);
    OnlyAreSolid(v, SOURCE, PAST);
    StartIs(r);
    FoundNext(v, bricks, r, Start(r), n);
  }

  // A bounce ray off a face that hits a voxel it crosses for half a unit and more: with jumping the
  // surface seems to face the other way, and is lit accordingly.
  lemma NormalsCanDiffer() returns (v: seq<Word>, bricks: seq<Word>)
    ensures BricksExact(v, bricks) && CastFrom(v, SOURCE, TOP, AsidePoint(), Out())
    ensures Marches(Lifted(AsidePoint(), TOP), Out(), Glancing()) && Slanted(Glancing()) && Thick(v, Glancing(), 0.5)
    ensures var ro := Lifted(AsidePoint(), TOP);
      var a, b := Traced(v, bricks, ro, Out(), false, 256), Traced(v, bricks, ro, Out(), true, 256);
      && a.Some? && b.Some? && a.value.cell == b.value.cell == PAST
      && a.value.nrm == Cell(0, -1, 0) && b.value.nrm == Cell(-1, 0, 0)
  {
    hide Out, Glancing, AsidePoint, Lifted, DeZeroed, Entry, Slanted, Proper, Thick, IsFirst, SolidAt, OnlySolid,
         CastFrom, Traced, Trace, Marches, StartCell, Manhattan, BrickOf, InGrid, Near, Far, Dot, BricksExact, Gentle,
         EnterTimes;
    PastCells();
    PastTimes();
    GlancingFacts();
    GlancingMarches();
    AsideLifted();
    v, bricks := SceneOf({SOURCE, PAST});
    SizesOf(v, bricks);
    OutIsCast(v, AsidePoint(), PAST);
    FirstAhead(v, Glancing(), PAST, 0.5);
    TracedAlong(v, bricks, Lifted(AsidePoint(), TOP), Out(), Glancing(), false, 256);
    TracedAlong(v, bricks, Lifted(AsidePoint(), TOP), Out(), Glancing(), true, 256);
    PastStepped(v, bricks, 256);
    PastJumped(v, bricks, 256);
  }

  // ------------------------------------------------------------------------------------------
  // The exact conditions
  // ------------------------------------------------------------------------------------------

  // In every scene whose solid cells are all crossed for more than w, n steps find the same with
  // and without jumping.
  ghost predicate SkippingIsSafe(n: nat, w: real) {
    forall v, bricks, r :: BricksExact(v, bricks) && Proper(r) && Slanted(r) && Thick(v, r, w) ==>
      Agree(Trace(v, bricks, r, false, n), Trace(v, bricks, r, true, n))
  }

  // Skipping is safe if and only if there is no step at all to be made, or the steps reach from
  // one corner of the grid to the other and no cell may be as thin as the nudge.
  lemma SkippingIsSafeExactly(n: nat, w: real)
    requires 0.0 <= w < 1.0
    ensures SkippingIsSafe(n, w) <==> n <= 1 || (n >= AMPLE && w >= NUDGE)
  {
    hide Proper, Slanted, Thick, Trace, AbsR, Long, Glancing, BrickSolid, OnlySolid;
    if n <= 1 {
      forall v, bricks, r | BricksExact(v, bricks) && Proper(r) && Slanted(r) && Thick(v, r, w)
        ensures Agree(Trace(v, bricks, r, false, n), Trace(v, bricks, r, true, n))
      {
        NoStepAgrees(v, bricks, r, n);
      }
    } else if n < AMPLE {
      var v, bricks := LongDisagrees(n, w);
    } else if w < NUDGE {
      var v, bricks := GlancingDisagrees(n, w);
    } else {
      forall v, bricks, r | BricksExact(v, bricks) && Proper(r) && Slanted(r) && Thick(v, r, w)
        ensures Agree(Trace(v, bricks, r, false, n), Trace(v, bricks, r, true, n))
      {
        Thicker(v, bricks, r, w, NUDGE);
        AmpleBudgetAgrees(v, bricks, r, n);
      }
    }
  }

  lemma NoStepAgrees(v: seq<Word>, bricks: seq<Word>, r: Ray, n: nat)
    requires BricksExact(v, bricks) && Slanted(r) && n <= 1
    ensures Agree(Trace(v, bricks, r, false, n), Trace(v, bricks, r, true, n))
  {
    hide Step, SolidAt, Start;
  }

  lemma Thicker(v: seq<Word>, bricks: seq<Word>, r: Ray, w: real, w': real)
    requires BricksExact(v, bricks) && Slanted(r) && Thick(v, r, w) && w' <= w
    ensures Thick(v, r, w')
  {
    hide Near, Far, SolidAt;
  }
}
