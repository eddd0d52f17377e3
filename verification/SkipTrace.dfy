// The shader's voxel march, with and without jumping over empty bricks.
module SkipTrace {
  import opened Grid
  import opened Vectors
  import opened Rays
  import opened Bricks

  // How far past a brick's face a jump lands.
  const NUDGE: real := 0.0005

  // ------------------------------------------------------------------------------------------
  // One axis: when the ray is between v and v + 1
  // ------------------------------------------------------------------------------------------

  function EnterAt(p: real, d: real, v: int): real
    requires d != 0.0
  {
    if d > 0.0 then (v as real - p) / d else (v as real + 1.0 - p) / d
  }

  function LeaveAt(p: real, d: real, v: int): real
    requires d != 0.0
  {
    if d > 0.0 then (v as real + 1.0 - p) / d else (v as real - p) / d
  }

  lemma Quotients(a: real, b: real, d: real)
    requires d != 0.0 && a <= b
    ensures d > 0.0 ==> a / d <= b / d && (a < b ==> a / d < b / d)
    ensures d < 0.0 ==> b / d <= a / d && (a < b ==> b / d < a / d)
  {
    QuotientBack(a, d);
    QuotientBack(b, d);
  }

  lemma QuotientBack(a: real, d: real)
    requires d != 0.0
    ensures Mul(a / d, d) == a
  {
  }

  // The ray is in the closed slab exactly between the two times.
  lemma SlabTimes(p: real, d: real, v: int, t: real)
    requires d != 0.0
    ensures v as real <= Along(p, d, t) <= v as real + 1.0 <==> EnterAt(p, d, v) <= t <= LeaveAt(p, d, v)
  {
    TimeAgainst(p, d, v as real, t);
    TimeAgainst(p, d, v as real + 1.0, t);
    hide Along;
  }

  lemma TimeAgainst(p: real, d: real, edge: real, t: real)
    requires d != 0.0
    ensures d > 0.0 ==> (edge <= Along(p, d, t) <==> (edge - p) / d <= t)
    ensures d > 0.0 ==> (Along(p, d, t) <= edge <==> t <= (edge - p) / d)
    ensures d < 0.0 ==> (edge <= Along(p, d, t) <==> t <= (edge - p) / d)
    ensures d < 0.0 ==> (Along(p, d, t) <= edge <==> (edge - p) / d <= t)
  {
    var q := (edge - p) / d;
    QuotientBack(edge - p, d);
    AlongStrict(p, d, q, t);
    AlongStrict(p, d, t, q);
  }

  lemma AlongStrict(p: real, d: real, s: real, t: real)
    ensures s < t && d > 0.0 ==> Along(p, d, s) < Along(p, d, t)
    ensures s < t && d < 0.0 ==> Along(p, d, t) < Along(p, d, s)
  {
    if s < t && d > 0.0 {
      assert (t - s) * d > 0.0;
    }
    if s < t && d < 0.0 {
      assert (t - s) * d < 0.0;
    }
  }

  // Slabs follow each other in the direction of travel.
  lemma SlabOrder(p: real, d: real, v: int, w: int)
    requires d != 0.0
    ensures EnterAt(p, d, v) < LeaveAt(p, d, v)
    ensures OnWay(v, d, w) ==> EnterAt(p, d, v) <= EnterAt(p, d, w) && LeaveAt(p, d, v) <= LeaveAt(p, d, w)
    ensures OnWay(v, d, w) && v != w ==> LeaveAt(p, d, v) <= EnterAt(p, d, w)
  {
    Quotients(v as real - p, v as real + 1.0 - p, d);
    if v <= w {
      Quotients(v as real - p, w as real - p, d);
      Quotients(v as real + 1.0 - p, w as real + 1.0 - p, d);
    }
    if w <= v {
      Quotients(w as real - p, v as real - p, d);
      Quotients(w as real + 1.0 - p, v as real + 1.0 - p, d);
    }
    if v < w {
      Quotients(v as real + 1.0 - p, w as real - p, d);
    }
    if w < v {
      Quotients(w as real + 1.0 - p, v as real - p, d);
    }
  }

  lemma NextSlab(p: real, d: real, v: int)
    requires d != 0.0
    ensures LeaveAt(p, d, v) == EnterAt(p, d, v + Sign(d))
    ensures LeaveAt(p, d, v + Sign(d)) == LeaveAt(p, d, v) + AbsR(1.0 / d)
  {
    if d > 0.0 {
      SplitQuotient(v as real + 1.0 - p, 1.0, d);
    } else {
      SplitQuotient(v as real - p, -1.0, d);
      NegativeReciprocal(d);
    }
  }

  lemma SplitQuotient(a: real, b: real, d: real)
    requires d != 0.0
    ensures (a + b) / d == a / d + b / d
  {
  }

  lemma NegativeReciprocal(d: real)
    requires d < 0.0
    ensures 1.0 / d < 0.0 && -1.0 / d == -(1.0 / d)
  {
  }

  // The cell a point falls into is one whose slab holds the point.
  lemma FloorSlab(p: real, d: real, t: real)
    requires d != 0.0
    ensures var v := Along(p, d, t).Floor; EnterAt(p, d, v) <= t <= LeaveAt(p, d, v)
  {
    SlabTimes(p, d, Along(p, d, t).Floor, t);
  }

  // Boundary of a cell in the direction of travel.
  function Edge(v: int, d: real): real {
    if d > 0.0 then v as real + 1.0 else v as real
  }

  // Leaving times computed afresh from a later point agree.
  lemma Recomputed(p: real, d: real, v: int, t: real)
    requires d != 0.0
    ensures (Edge(v, d) - Along(p, d, t)) / d + t == LeaveAt(p, d, v)
  {
    SplitQuotient(Edge(v, d) - p, -Mul(t, d), d);
    assert -Mul(t, d) / d == -t;
  }

  // ------------------------------------------------------------------------------------------
  // Three axes
  // ------------------------------------------------------------------------------------------

  // A ray, and the normal to report if it is stopped where it starts.
  datatype Ray = Ray(p: Vec3, d: Vec3, face: Cell)

  predicate NonZero(d: Vec3) {
    d.x != 0.0 && d.y != 0.0 && d.z != 0.0
  }

  predicate Slanted(r: Ray) {
    NonZero(r.d)
  }

  function EnterTimes(r: Ray, c: Cell): Vec3
    requires Slanted(r)
  {
    Vec3(EnterAt(r.p.x, r.d.x, c.x), EnterAt(r.p.y, r.d.y, c.y), EnterAt(r.p.z, r.d.z, c.z))
  }

  function LeaveTimes(r: Ray, c: Cell): Vec3
    requires Slanted(r)
  {
    Vec3(LeaveAt(r.p.x, r.d.x, c.x), LeaveAt(r.p.y, r.d.y, c.y), LeaveAt(r.p.z, r.d.z, c.z))
  }

  function Largest(v: Vec3): real {
    if v.x >= v.y && v.x >= v.z then v.x else if v.y >= v.z then v.y else v.z
  }

  function Smallest(v: Vec3): real {
    if v.x <= v.y && v.x <= v.z then v.x else if v.y <= v.z then v.y else v.z
  }

  // The ray is in the closed cell from Near to Far.
  function Near(r: Ray, c: Cell): real
    requires Slanted(r)
  {
    Largest(EnterTimes(r, c))
  }

  function Far(r: Ray, c: Cell): real
    requires Slanted(r)
  {
    Smallest(LeaveTimes(r, c))
  }

  lemma NearAndFar(r: Ray, c: Cell, t: real)
    requires Slanted(r)
    ensures Meets(r.p, r.d, c, t) <==> Near(r, c) <= t <= Far(r, c)
  {
    SlabTimes(r.p.x, r.d.x, c.x, t);
    SlabTimes(r.p.y, r.d.y, c.y, t);
    SlabTimes(r.p.z, r.d.z, c.z, t);
    hide Along, EnterAt, LeaveAt;
  }

  predicate During(r: Ray, c: Cell, t: real)
    requires Slanted(r)
  {
    Near(r, c) <= t <= Far(r, c)
  }

  lemma AxisOverlap(p: real, d: real, v: int, w: int, t: real)
    requires d != 0.0 && EnterAt(p, d, v) < t < LeaveAt(p, d, v) && EnterAt(p, d, w) <= t <= LeaveAt(p, d, w)
    ensures v == w
  {
    SlabOrder(p, d, v, w);
    SlabOrder(p, d, w, v);
  }

  // While it is strictly inside one cell the ray touches no other.
  lemma Overlap(r: Ray, c: Cell, e: Cell, t: real)
    requires Slanted(r) && Near(r, c) < t < Far(r, c) && During(r, e, t)
    ensures c == e
  {
    hide EnterAt, LeaveAt;
    AxisOverlap(r.p.x, r.d.x, c.x, e.x, t);
    AxisOverlap(r.p.y, r.d.y, c.y, e.y, t);
    AxisOverlap(r.p.z, r.d.z, c.z, e.z, t);
  }

  // A cell still to be left lies ahead of one that was entered before.
  lemma AxisAhead(p: real, d: real, v: int, w: int, t: real)
    requires d != 0.0 && EnterAt(p, d, v) <= t < LeaveAt(p, d, w)
    ensures OnWay(v, d, w)
  {
    SlabOrder(p, d, w, v);
  }

  lemma Ahead(r: Ray, c: Cell, e: Cell, t: real)
    requires Slanted(r) && Near(r, c) <= t < Far(r, e)
    ensures AllOnWay(c, r.d, e)
  {
    hide EnterAt, LeaveAt;
    AxisAhead(r.p.x, r.d.x, c.x, e.x, t);
    AxisAhead(r.p.y, r.d.y, c.y, e.y, t);
    AxisAhead(r.p.z, r.d.z, c.z, e.z, t);
  }

  // ------------------------------------------------------------------------------------------
  // The march
  // ------------------------------------------------------------------------------------------

  // The current cell, when each axis leaves it, and the time and the face it was entered through.
  datatype Dda = Dda(cell: Cell, tMax: Vec3, tEnter: real, nrm: Cell)

  function PointAt(r: Ray, t: real): Vec3 {
    Vec3(Along(r.p.x, r.d.x, t), Along(r.p.y, r.d.y, t), Along(r.p.z, r.d.z, t))
  }

  // Cell the ray is in at time t.
  function CellAtTime(r: Ray, t: real): Cell {
    Cell(Along(r.p.x, r.d.x, t).Floor, Along(r.p.y, r.d.y, t).Floor, Along(r.p.z, r.d.z, t).Floor)
  }

  function Start(r: Ray): Dda
    requires Slanted(r)
  {
    var c := StartCell(r.p);
    Dda(c, Vec3((Edge(c.x, r.d.x) - r.p.x) / r.d.x, (Edge(c.y, r.d.y) - r.p.y) / r.d.y,
                (Edge(c.z, r.d.z) - r.p.z) / r.d.z), 0.0, r.face)
  }

  // On to the next cell.
  function FineStep(r: Ray, s: Dda): Dda
    requires Slanted(r)
  {
    if s.tMax.x < s.tMax.y && s.tMax.x < s.tMax.z then
      Dda(s.cell.(x := s.cell.x + Sign(r.d.x)), s.tMax.(x := s.tMax.x + AbsR(1.0 / r.d.x)), s.tMax.x,
          Cell(-Sign(r.d.x), 0, 0))
    else if s.tMax.y < s.tMax.z then
      Dda(s.cell.(y := s.cell.y + Sign(r.d.y)), s.tMax.(y := s.tMax.y + AbsR(1.0 / r.d.y)), s.tMax.y,
          Cell(0, -Sign(r.d.y), 0))
    else
      Dda(s.cell.(z := s.cell.z + Sign(r.d.z)), s.tMax.(z := s.tMax.z + AbsR(1.0 / r.d.z)), s.tMax.z,
          Cell(0, 0, -Sign(r.d.z)))
  }

  // Time at which the ray meets the far side of the brick that holds v.
  function BrickFace(p: real, d: real, v: int): real
    requires d != 0.0
  {
    var bmin := v / BRICK_DIM * BRICK_DIM;
    ((if d > 0.0 then bmin + BRICK_DIM else bmin) as real - p) / d
  }

  function BrickSkipT(r: Ray, c: Cell): real
    requires Slanted(r)
  {
    Smallest(Vec3(BrickFace(r.p.x, r.d.x, c.x), BrickFace(r.p.y, r.d.y, c.y), BrickFace(r.p.z, r.d.z, c.z)))
  }

  // The brick face that is met first, as a normal.
  function BrickNormal(r: Ray, c: Cell): Cell
    requires Slanted(r)
  {
    var t := Vec3(BrickFace(r.p.x, r.d.x, c.x), BrickFace(r.p.y, r.d.y, c.y), BrickFace(r.p.z, r.d.z, c.z));
    if t.x <= t.y && t.x <= t.z then Cell(-Sign(r.d.x), 0, 0)
    else if t.y <= t.z then Cell(0, -Sign(r.d.y), 0)
    else Cell(0, 0, -Sign(r.d.z))
  }

  // Just inside the next brick.
  function SkipStep(r: Ray, s: Dda): Dda
    requires Slanted(r)
  {
    var tBrick := BrickSkipT(r, s.cell);
    var t := tBrick + NUDGE;
    var nc := CellAtTime(r, t);
    Dda(nc, Vec3((Edge(nc.x, r.d.x) - Along(r.p.x, r.d.x, t)) / r.d.x + t,
                 (Edge(nc.y, r.d.y) - Along(r.p.y, r.d.y, t)) / r.d.y + t,
                 (Edge(nc.z, r.d.z) - Along(r.p.z, r.d.z, t)) / r.d.z + t), tBrick, BrickNormal(r, s.cell))
  }

  function SolidAt(v: seq<Word>, c: Cell): bool
    requires VoxelSized(v)
  {
    InGrid(c) && Peek(v, WORLD_DIM, c) != 0
  }

  function BrickIsEmpty(bricks: seq<Word>, c: Cell): bool
    requires BrickSized(bricks) && InGrid(c)
  {
    BrickInGrid(c);
    Peek(bricks, BRICK_GRID, BrickOf(c)) == 0
  }

  function Step(bricks: seq<Word>, r: Ray, skip: bool, s: Dda): Dda
    requires BrickSized(bricks) && Slanted(r) && InGrid(s.cell)
  {
    if skip && BrickIsEmpty(bricks, s.cell) && SkipStep(r, s).cell != s.cell then SkipStep(r, s) else FineStep(r, s)
  }

  datatype Hit = Hit(cell: Cell, tEnter: real, nrm: Cell)

  // The loop, with n steps left.
  function TraceFrom(v: seq<Word>, bricks: seq<Word>, r: Ray, skip: bool, s: Dda, n: nat): Option<Hit>
    requires VoxelSized(v) && BrickSized(bricks) && Slanted(r)
    decreases n
  {
    if n == 0 || !InGrid(s.cell) then None
    else if SolidAt(v, s.cell) then Some(Hit(s.cell, s.tEnter, s.nrm))
    else TraceFrom(v, bricks, r, skip, Step(bricks, r, skip, s), n - 1)
  }

  // ------------------------------------------------------------------------------------------
  // One step
  // ------------------------------------------------------------------------------------------

  // The leaving times are those of the current cell.
  ghost predicate TimesFit(r: Ray, s: Dda)
    requires Slanted(r)
  {
    s.tMax == LeaveTimes(r, s.cell)
  }

  lemma FineMoves(r: Ray, s: Dda, c0: Cell)
    requires Slanted(r) && AllOnWay(c0, r.d, s.cell)
    ensures var s' := FineStep(r, s); AllOnWay(c0, r.d, s'.cell) && Manhattan(s'.cell, c0) == Manhattan(s.cell, c0) + 1
  {
  }

  lemma FineTimes(r: Ray, s: Dda)
    requires Slanted(r) && TimesFit(r, s)
    ensures var s' := FineStep(r, s);
      && TimesFit(r, s') && s'.tEnter == Far(r, s.cell)
      && (EnterTimes(r, s'.cell).x == s'.tEnter || EnterTimes(r, s'.cell).y == s'.tEnter
          || EnterTimes(r, s'.cell).z == s'.tEnter)
      && (s'.cell.x == s.cell.x || (s'.cell.x == s.cell.x + Sign(r.d.x) && EnterTimes(r, s'.cell).x == s'.tEnter))
      && (s'.cell.y == s.cell.y || (s'.cell.y == s.cell.y + Sign(r.d.y) && EnterTimes(r, s'.cell).y == s'.tEnter))
      && (s'.cell.z == s.cell.z || (s'.cell.z == s.cell.z + Sign(r.d.z) && EnterTimes(r, s'.cell).z == s'.tEnter))
  {
    NextSlab(r.p.x, r.d.x, s.cell.x);
    NextSlab(r.p.y, r.d.y, s.cell.y);
    NextSlab(r.p.z, r.d.z, s.cell.z);
    hide EnterAt, LeaveAt, Sign;
  }

  // An axis that waits, or that has just moved into the next slab, is in its slab.
  lemma AxisIn(p: real, d: real, v: int, w: int, t: real, t': real)
    requires d != 0.0 && EnterAt(p, d, v) <= t <= t' <= LeaveAt(p, d, v)
    requires w == v || (w == v + Sign(d) && EnterAt(p, d, w) == t')
    ensures EnterAt(p, d, w) <= t' <= LeaveAt(p, d, w)
  {
    SlabOrder(p, d, w, w);
  }

  lemma FineStepFacts(r: Ray, s: Dda, t: real)
    requires Slanted(r) && TimesFit(r, s) && During(r, s.cell, t)
    ensures var s' := FineStep(r, s);
      && TimesFit(r, s') && s'.tEnter == Far(r, s.cell)
      && During(r, s'.cell, s'.tEnter) && Near(r, s'.cell) == s'.tEnter
  {
    FineTimes(r, s);
    hide EnterAt, LeaveAt, Sign, FineStep;
    var s' := FineStep(r, s);
    AxisIn(r.p.x, r.d.x, s.cell.x, s'.cell.x, t, s'.tEnter);
    AxisIn(r.p.y, r.d.y, s.cell.y, s'.cell.y, t, s'.tEnter);
    AxisIn(r.p.z, r.d.z, s.cell.z, s'.cell.z, t, s'.tEnter);
  }

  // The last cell of a brick in the direction of travel.
  function LastOf(v: int, d: real): int {
    v / BRICK_DIM * BRICK_DIM + if d > 0.0 then BRICK_DIM - 1 else 0
  }

  lemma FaceIsLast(p: real, d: real, v: int)
    requires d != 0.0
    ensures BrickFace(p, d, v) == LeaveAt(p, d, LastOf(v, d)) && OnWay(v, d, LastOf(v, d))
  {
  }

  // After the jump every axis is ahead of, or still in, the slab it was in; and the axis whose
  // face was met first has left its brick.
  lemma AxisJumps(p: real, d: real, v: int, t: real, tBrick: real)
    requires d != 0.0 && EnterAt(p, d, v) <= t <= tBrick <= BrickFace(p, d, v)
    ensures var w := Along(p, d, tBrick + NUDGE).Floor;
      && EnterAt(p, d, w) <= tBrick + NUDGE <= LeaveAt(p, d, w) && OnWay(v, d, w)
      && (tBrick == BrickFace(p, d, v) ==> w / BRICK_DIM != v / BRICK_DIM && tBrick <= EnterAt(p, d, w))
      && (Edge(w, d) - Along(p, d, tBrick + NUDGE)) / d + (tBrick + NUDGE) == LeaveAt(p, d, w)
  {
    var t' := tBrick + NUDGE;
    var w := Along(p, d, t').Floor;
    FloorSlab(p, d, t');
    Recomputed(p, d, w, t');
    FaceIsLast(p, d, v);
    hide EnterAt, LeaveAt, Along, BrickFace, LastOf;
    AxisAhead(p, d, v, w, t);
    if tBrick == BrickFace(p, d, v) {
      PastFace(p, d, LastOf(v, d), w, t');
      PastLast(v, d, w);
    }
  }

  lemma PastLast(v: int, d: real, w: int)
    requires d != 0.0 && OnWay(LastOf(v, d), d, w) && w != LastOf(v, d)
    ensures w / BRICK_DIM != v / BRICK_DIM
  {
  }

  lemma PastFace(p: real, d: real, last: int, w: int, t: real)
    requires d != 0.0 && LeaveAt(p, d, last) < t <= LeaveAt(p, d, w)
    ensures OnWay(last, d, w) && w != last && LeaveAt(p, d, last) <= EnterAt(p, d, w)
  {
    SlabOrder(p, d, w, last);
    SlabOrder(p, d, last, w);
  }

  lemma SkipStepFacts(r: Ray, s: Dda, t: real)
    requires Slanted(r) && TimesFit(r, s) && During(r, s.cell, t)
    ensures var s' := SkipStep(r, s); var tBrick := BrickSkipT(r, s.cell);
      && BrickOf(s'.cell) != BrickOf(s.cell) && s'.tEnter == tBrick >= t
      && TimesFit(r, s') && During(r, s'.cell, tBrick + NUDGE) && Near(r, s'.cell) >= tBrick
      && AllOnWay(s.cell, r.d, s'.cell)
  {
    var tBrick := BrickSkipT(r, s.cell);
    FaceLater(r.p.x, r.d.x, s.cell.x);
    FaceLater(r.p.y, r.d.y, s.cell.y);
    FaceLater(r.p.z, r.d.z, s.cell.z);
    hide EnterAt, LeaveAt, Along, BrickFace, Edge, OnWay;
    AxisJumps(r.p.x, r.d.x, s.cell.x, t, tBrick);
    AxisJumps(r.p.y, r.d.y, s.cell.y, t, tBrick);
    AxisJumps(r.p.z, r.d.z, s.cell.z, t, tBrick);
  }

  // The normals of the six faces a ray can come in through.
  function FaceOn(axis: nat, d: Vec3): Cell {
    Cell(if axis == 0 then -Sign(d.x) else 0, if axis == 1 then -Sign(d.y) else 0, if axis == 2 then -Sign(d.z) else 0)
  }

  // Where a ray leaves a cell through an edge, a step goes over the last of the axes it is at ...
  lemma StepAtEdge(r: Ray, s: Dda)
    requires Slanted(r)
    ensures var s', t := FineStep(r, s), Smallest(s.tMax);
      && s'.tEnter == t
      && s'.nrm == FaceOn(if s.tMax.z == t then 2 else if s.tMax.y == t then 1 else 0, r.d)
      && s'.cell == Cell(s.cell.x - s'.nrm.x, s.cell.y - s'.nrm.y, s.cell.z - s'.nrm.z)
  {
  }

  // ... and a jump that leaves a brick through an edge reports the first.
  lemma JumpAtEdge(r: Ray, s: Dda)
    requires Slanted(r)
    ensures var t, c := BrickSkipT(r, s.cell), s.cell;
      SkipStep(r, s).nrm == FaceOn(if BrickFace(r.p.x, r.d.x, c.x) == t then 0
                                   else if BrickFace(r.p.y, r.d.y, c.y) == t then 1 else 2, r.d)
  {
    hide BrickFace;
  }

  lemma FaceLater(p: real, d: real, v: int)
    requires d != 0.0
    ensures LeaveAt(p, d, v) <= BrickFace(p, d, v)
  {
    FaceIsLast(p, d, v);
    SlabOrder(p, d, v, LastOf(v, d));
  }

  // Whatever is strictly inside until the brick's face is met lies in the brick.
  lemma AxisInBrick(p: real, d: real, v: int, w: int, t: real)
    requires d != 0.0 && EnterAt(p, d, v) < t < BrickFace(p, d, v) && EnterAt(p, d, w) < t < LeaveAt(p, d, w)
    ensures w / BRICK_DIM == v / BRICK_DIM
  {
    FaceIsLast(p, d, v);
    AxisAhead(p, d, v, w, t);
    SlabOrder(p, d, LastOf(v, d), w);
    NotPast(p, d, v, w, t);
  }

  lemma NotPast(p: real, d: real, v: int, w: int, t: real)
    requires d != 0.0 && OnWay(v, d, w) && EnterAt(p, d, w) < t < LeaveAt(p, d, LastOf(v, d))
    ensures w / BRICK_DIM == v / BRICK_DIM
  {
    var last := LastOf(v, d);
    SlabOrder(p, d, last, w);
    assert !(OnWay(last, d, w) && last != w);
    hide EnterAt, LeaveAt;
  }

  lemma InBrick(r: Ray, c: Cell, e: Cell, t: real)
    requires Slanted(r) && Near(r, c) < t < BrickSkipT(r, c) && Near(r, e) < t < Far(r, e)
    ensures BrickOf(e) == BrickOf(c)
  {
    hide EnterAt, LeaveAt, BrickFace;
    AxisInBrick(r.p.x, r.d.x, c.x, e.x, t);
    AxisInBrick(r.p.y, r.d.y, c.y, e.y, t);
    AxisInBrick(r.p.z, r.d.z, c.z, e.z, t);
  }

  // ------------------------------------------------------------------------------------------
  // What the march keeps
  // ------------------------------------------------------------------------------------------

  // No solid cell that the ray touches from its start on is crossed for a time of w or less.
  ghost predicate Thick(v: seq<Word>, r: Ray, w: real)
    requires VoxelSized(v) && Slanted(r)
  {
    forall c :: SolidAt(v, c) && Near(r, c) <= Far(r, c) && Far(r, c) >= 0.0 ==> Far(r, c) - Near(r, c) > w
  }

  // Stepping needs solid cells to be crossed at all, jumping needs them to be crossed for longer
  // than the nudge.
  function Needed(skip: bool): real {
    if skip then NUDGE else 0.0
  }

  // A solid cell the ray is in at some time after its start.
  ghost predicate Sight(v: seq<Word>, r: Ray, c: Cell)
    requires VoxelSized(v) && Slanted(r)
  {
    SolidAt(v, c) && Near(r, c) <= Far(r, c) && Far(r, c) > 0.0
  }

  // The first solid cell in sight.
  ghost predicate IsFirst(v: seq<Word>, r: Ray, c: Cell)
    requires VoxelSized(v) && Slanted(r)
  {
    Sight(v, r, c) && forall e :: Sight(v, r, e) ==> Near(r, c) <= Near(r, e)
  }

  lemma FirstIsUnique(v: seq<Word>, r: Ray, c: Cell, e: Cell)
    requires VoxelSized(v) && Slanted(r) && Thick(v, r, 0.0) && IsFirst(v, r, c) && IsFirst(v, r, e)
    ensures c == e
  {
    hide Near, Far, SolidAt;
    assert Near(r, c) == Near(r, e);
    var m := MeetBetween(r, c, Near(r, c), Near(r, c) + 1.0);
    var t := MeetBetween(r, e, Near(r, e), m);
    Overlap(r, c, e, t);
  }

  // After k steps: the ray is in the cell at time t, every solid cell in sight is ahead.
  ghost predicate Marching(v: seq<Word>, r: Ray, c0: Cell, s: Dda, t: real, k: nat)
    requires VoxelSized(v) && Slanted(r)
  {
    && TimesFit(r, s) && During(r, s.cell, t) && 0.0 <= s.tEnter <= t <= s.tEnter + NUDGE
    && AllOnWay(c0, r.d, s.cell) && Manhattan(s.cell, c0) >= k
    && (if k == 0 then s.cell == c0 else Near(r, s.cell) >= s.tEnter)
    && forall e :: Sight(v, r, e) && e != s.cell ==> Near(r, e) >= t
  }

  lemma MarchStarts(v: seq<Word>, r: Ray)
    requires VoxelSized(v) && Slanted(r) && Thick(v, r, 0.0)
    ensures Marching(v, r, StartCell(r.p), Start(r), 0.0, 0)
  {
    var c := StartCell(r.p);
    AtStart(r.p.x, r.d.x);
    AtStart(r.p.y, r.d.y);
    AtStart(r.p.z, r.d.z);
    hide EnterAt, LeaveAt, Edge;
    forall e | Sight(v, r, e) && e != c
      ensures Near(r, e) >= 0.0
    {
      if Near(r, e) < 0.0 {
        Overlap(r, e, c, 0.0);
      }
    }
  }

  lemma AtStart(p: real, d: real)
    requires d != 0.0
    ensures EnterAt(p, d, p.Floor) <= 0.0 <= LeaveAt(p, d, p.Floor)
    ensures (Edge(p.Floor, d) - p) / d == LeaveAt(p, d, p.Floor)
  {
    assert Along(p, d, 0.0) == p;
    FloorSlab(p, d, 0.0);
  }

  // Between two times the ray is strictly inside a cell that it enters before the later one.
  lemma MeetBetween(r: Ray, e: Cell, t: real, t': real) returns (m: real)
    requires Slanted(r) && t <= Near(r, e) < t' && Near(r, e) < Far(r, e)
    ensures t < m < t' && Near(r, e) < m < Far(r, e)
  {
    hide Near, Far;
    var end := if Far(r, e) < t' then Far(r, e) else t';
    m := (Near(r, e) + end) / 2.0;
  }

  lemma FineKeeps(v: seq<Word>, r: Ray, c0: Cell, s: Dda, t: real, k: nat)
    requires VoxelSized(v) && Slanted(r) && Thick(v, r, 0.0) && Marching(v, r, c0, s, t, k) && !SolidAt(v, s.cell)
    ensures var s' := FineStep(r, s); Marching(v, r, c0, s', s'.tEnter, k + 1)
  {
    var s' := FineStep(r, s);
    FineStepFacts(r, s, t);
    FineMoves(r, s, c0);
    hide Near, Far, SolidAt, FineStep, Manhattan, AllOnWay, TimesFit;
    forall e | Sight(v, r, e) && e != s'.cell
      ensures Near(r, e) >= s'.tEnter
    {
      if Near(r, e) < s'.tEnter {
        var m := MeetBetween(r, e, t, s'.tEnter);
        Overlap(r, e, s.cell, m);
      }
    }
  }

  lemma SkipKeeps(v: seq<Word>, bricks: seq<Word>, r: Ray, c0: Cell, s: Dda, t: real, k: nat)
    requires BricksExact(v, bricks) && Slanted(r) && Thick(v, r, NUDGE) && Marching(v, r, c0, s, t, k)
    requires InGrid(s.cell) && BrickIsEmpty(bricks, s.cell)
    ensures var s' := SkipStep(r, s);
      s'.cell != s.cell && Marching(v, r, c0, s', s'.tEnter + NUDGE, k + 1)
  {
    var s' := SkipStep(r, s);
    SkipStepFacts(r, s, t);
    hide SolidAt, SkipStep, BrickSkipT, TimesFit, Near, Far;
    Further(c0, r.d, s.cell, s'.cell);
    var tNp := s'.tEnter + NUDGE;
    forall e | Sight(v, r, e) && e != s'.cell
      ensures Near(r, e) >= tNp
    {
      EmptyHoldsNothing(v, bricks, s.cell, e);
      if Near(r, e) < s'.tEnter {
        var m := MeetBetween(r, e, t, s'.tEnter);
        InBrick(r, s.cell, e, m);
      } else if Near(r, e) < tNp {
        Overlap(r, e, s'.cell, tNp);
      }
    }
  }

  lemma EmptyHoldsNothing(v: seq<Word>, bricks: seq<Word>, c: Cell, e: Cell)
    requires BricksExact(v, bricks) && InGrid(c) && BrickIsEmpty(bricks, c) && SolidAt(v, e)
    ensures BrickOf(e) != BrickOf(c) && e != c
  {
    BrickInGrid(c);
  }

  lemma Further(c0: Cell, d: Vec3, c: Cell, c': Cell)
    requires AllOnWay(c0, d, c) && AllOnWay(c, d, c') && c' != c
    ensures AllOnWay(c0, d, c') && Manhattan(c', c0) >= Manhattan(c, c0) + 1
  {
  }

  lemma StepKeeps(v: seq<Word>, bricks: seq<Word>, r: Ray, skip: bool, c0: Cell, s: Dda, t: real, k: nat)
    returns (t': real)
    requires BricksExact(v, bricks) && Slanted(r) && Thick(v, r, Needed(skip)) && Marching(v, r, c0, s, t, k)
    requires InGrid(s.cell) && !SolidAt(v, s.cell)
    ensures Marching(v, r, c0, Step(bricks, r, skip, s), t', k + 1)
    ensures !skip ==> Manhattan(Step(bricks, r, skip, s).cell, c0) == Manhattan(s.cell, c0) + 1
  {
    FineMoves(r, s, c0);
    hide Marching, Thick, FineStep, SkipStep, BrickIsEmpty, SolidAt, Manhattan;
    if skip && BrickIsEmpty(bricks, s.cell) {
      SkipKeeps(v, bricks, r, c0, s, t, k);
      t' := SkipStep(r, s).tEnter + NUDGE;
    } else {
      FineKeeps(v, r, c0, s, t, k);
      t' := FineStep(r, s).tEnter;
    }
  }

  // ------------------------------------------------------------------------------------------
  // What the trace finds
  // ------------------------------------------------------------------------------------------

  // A hit is the first solid cell in sight, met up to the nudge after the reported time; with no
  // hit, whatever solid is in sight is at least n cells away.
  ghost predicate Answers(v: seq<Word>, r: Ray, c0: Cell, n: nat, h: Option<Hit>)
    requires VoxelSized(v) && Slanted(r)
  {
    match h
    case Some(hit) => IsFirst(v, r, hit.cell) && hit.tEnter <= Near(r, hit.cell) <= hit.tEnter + NUDGE
    case None => forall e :: Sight(v, r, e) ==> Manhattan(e, c0) >= n
  }

  lemma ArrivedIsFirst(v: seq<Word>, r: Ray, c0: Cell, s: Dda, t: real, k: nat)
    requires VoxelSized(v) && Slanted(r) && Thick(v, r, 0.0) && Marching(v, r, c0, s, t, k) && k > 0
    requires SolidAt(v, s.cell)
    ensures Answers(v, r, c0, k, Some(Hit(s.cell, s.tEnter, s.nrm)))
  {
    hide SolidAt, Near, Far;
  }

  // Whatever is in sight lies ahead.
  lemma SightIsAhead(v: seq<Word>, r: Ray, c0: Cell, s: Dda, t: real, k: nat, e: Cell)
    requires VoxelSized(v) && Slanted(r) && Thick(v, r, 0.0) && Marching(v, r, c0, s, t, k) && Sight(v, r, e)
    ensures AllOnWay(s.cell, r.d, e) && Manhattan(e, c0) >= k
  {
    if e != s.cell {
      assert Near(r, e) < Far(r, e);
      Ahead(r, s.cell, e, t);
    }
    hide Near, Far, SolidAt;
  }

  // Out of the grid, once it has been in the grid, nothing is in sight any more.
  lemma NothingBeyond(v: seq<Word>, r: Ray, c0: Cell, s: Dda, t: real, k: nat, gate: Cell, e: Cell)
    requires VoxelSized(v) && Slanted(r) && Thick(v, r, 0.0) && Marching(v, r, c0, s, t, k)
    requires InGrid(gate) && AllOnWay(gate, r.d, s.cell) && !InGrid(s.cell)
    ensures !Sight(v, r, e)
  {
    if Sight(v, r, e) {
      SightIsAhead(v, r, c0, s, t, k, e);
    }
  }

  lemma {:induction false} TraceAnswers(v: seq<Word>, bricks: seq<Word>, r: Ray, skip: bool, c0: Cell, s: Dda, t: real,
                                        k: nat, n: nat)
    requires BricksExact(v, bricks) && Slanted(r) && Thick(v, r, Needed(skip)) && Marching(v, r, c0, s, t, k)
    requires InGrid(c0) && !SolidAt(v, c0)
    ensures Answers(v, r, c0, k + n, TraceFrom(v, bricks, r, skip, s, n))
    decreases n
  {
    hide Marching, Thick, Step, SolidAt, Sight, IsFirst, BricksExact;
    assert VoxelSized(v) && BrickSized(bricks) by { SizesOf(v, bricks); }
    AtFirst(v, r, c0, s, t, k);
    ThickEnough(v, r, Needed(skip));
    if n == 0 {
      forall e | Sight(v, r, e)
        ensures Manhattan(e, c0) >= k
      {
        SightIsAhead(v, r, c0, s, t, k, e);
      }
    } else if !InGrid(s.cell) {
      forall e
        ensures !Sight(v, r, e)
      {
        NothingBeyond(v, r, c0, s, t, k, c0, e);
      }
    } else if SolidAt(v, s.cell) {
      ArrivedIsFirst(v, r, c0, s, t, k);
    } else {
      var t' := StepKeeps(v, bricks, r, skip, c0, s, t, k);
      TraceAnswers(v, bricks, r, skip, c0, Step(bricks, r, skip, s), t', k + 1, n - 1);
    }
  }

  lemma ThickEnough(v: seq<Word>, r: Ray, w: real)
    requires VoxelSized(v) && Slanted(r) && Thick(v, r, w) && w >= 0.0
    ensures Thick(v, r, 0.0)
  {
    hide Near, Far, SolidAt;
  }

  lemma SizesOf(v: seq<Word>, bricks: seq<Word>)
    requires BricksExact(v, bricks)
    ensures VoxelSized(v) && BrickSized(bricks)
  {
  }

  lemma AtFirst(v: seq<Word>, r: Ray, c0: Cell, s: Dda, t: real, k: nat)
    requires VoxelSized(v) && Slanted(r) && Marching(v, r, c0, s, t, k)
    ensures k == 0 ==> s.cell == c0
    ensures AllOnWay(c0, r.d, s.cell) && Manhattan(s.cell, c0) >= k
  {
  }

  // ------------------------------------------------------------------------------------------
  // Jumping over empty bricks does not change what is found
  // ------------------------------------------------------------------------------------------

  function Trace(v: seq<Word>, bricks: seq<Word>, r: Ray, skip: bool, n: nat): Option<Hit>
    requires VoxelSized(v) && BrickSized(bricks) && Slanted(r)
  {
    TraceFrom(v, bricks, r, skip, Start(r), n)
  }

  // Hit or miss, and the cell; the reported times are at most the nudge apart.
  predicate Agree(a: Option<Hit>, b: Option<Hit>) {
    match a
    case None => b == None
    case Some(h) => b.Some? && b.value.cell == h.cell && AbsR(b.value.tEnter - h.tEnter) <= NUDGE
  }

  // With an exact brick index the two traces agree, provided that the step budget reaches the
  // first solid cell in sight.
  lemma SkippingAgrees(v: seq<Word>, bricks: seq<Word>, r: Ray, n: nat)
    requires BricksExact(v, bricks) && Slanted(r) && Thick(v, r, NUDGE)
    requires forall c :: IsFirst(v, r, c) ==> Manhattan(c, StartCell(r.p)) < n
    ensures Agree(Trace(v, bricks, r, false, n), Trace(v, bricks, r, true, n))
  {
    var c0 := StartCell(r.p);
    if InGrid(c0) && !SolidAt(v, c0) {
      MarchStarts(v, r);
      TraceAnswers(v, bricks, r, false, c0, Start(r), 0.0, 0, n);
      TraceAnswers(v, bricks, r, true, c0, Start(r), 0.0, 0, n);
      hide TraceFrom, Near, Thick, BricksExact, Manhattan;
      var a, b := Trace(v, bricks, r, false, n), Trace(v, bricks, r, true, n);
      if a.Some? && b.Some? {
        FirstIsUnique(v, r, a.value.cell, b.value.cell);
      }
    }
  }

  // Enough steps for the longest way through the grid, from one corner to the opposite one.
  const AMPLE: nat := 3 * (WORLD_DIM - 1) + 1

  lemma AmpleBudgetAgrees(v: seq<Word>, bricks: seq<Word>, r: Ray, n: nat)
    requires BricksExact(v, bricks) && Slanted(r) && Thick(v, r, NUDGE) && n >= AMPLE
    ensures Agree(Trace(v, bricks, r, false, n), Trace(v, bricks, r, true, n))
  {
    if InGrid(StartCell(r.p)) {
      forall c | IsFirst(v, r, c)
        ensures Manhattan(c, StartCell(r.p)) < n
      {
      }
      SkippingAgrees(v, bricks, r, n);
    }
  }

  // The step-by-step trace finds the first solid cell exactly if the budget reaches it.
  lemma {:induction false} FineReach(v: seq<Word>, bricks: seq<Word>, r: Ray, c0: Cell, s: Dda, n: nat)
    requires VoxelSized(v) && BrickSized(bricks) && Slanted(r) && AllOnWay(c0, r.d, s.cell)
    ensures var h := TraceFrom(v, bricks, r, false, s, n);
      h.Some? ==> Manhattan(h.value.cell, c0) < Manhattan(s.cell, c0) + n
    decreases n
  {
    hide Manhattan, FineStep, SolidAt, AllOnWay;
    if n > 0 && InGrid(s.cell) && !SolidAt(v, s.cell) {
      FineMoves(r, s, c0);
      FineReach(v, bricks, r, c0, FineStep(r, s), n - 1);
    }
  }

  lemma FineFindsWithinBudget(v: seq<Word>, bricks: seq<Word>, r: Ray, n: nat, c: Cell)
    requires BricksExact(v, bricks) && Slanted(r) && Thick(v, r, 0.0) && IsFirst(v, r, c)
    requires InGrid(StartCell(r.p)) && !SolidAt(v, StartCell(r.p))
    ensures var h := Trace(v, bricks, r, false, n);
      (h.Some? <==> Manhattan(c, StartCell(r.p)) < n) && (h.Some? ==> h.value.cell == c)
  {
    var c0 := StartCell(r.p);
    MarchStarts(v, r);
    TraceAnswers(v, bricks, r, false, c0, Start(r), 0.0, 0, n);
    FineReach(v, bricks, r, c0, Start(r), n);
    hide TraceFrom, Near, Thick, BricksExact, SolidAt;
    var h := Trace(v, bricks, r, false, n);
    if h.Some? {
      FirstIsUnique(v, r, h.value.cell, c);
    }
  }

  // For a ray through empty space, and whatever the budget: the traces agree if and only if what
  // jumping finds is within the budget of stepping, cell by cell.
  lemma AgreeIffReached(v: seq<Word>, bricks: seq<Word>, r: Ray, n: nat)
    requires BricksExact(v, bricks) && Slanted(r) && Thick(v, r, NUDGE)
    requires InGrid(StartCell(r.p)) && !SolidAt(v, StartCell(r.p))
    ensures var b := Trace(v, bricks, r, true, n);
      Agree(Trace(v, bricks, r, false, n), b) <==> b.None? || Manhattan(b.value.cell, StartCell(r.p)) < n
  {
    var c0 := StartCell(r.p);
    var a, b := Trace(v, bricks, r, false, n), Trace(v, bricks, r, true, n);
    ThickEnough(v, r, NUDGE);
    MarchStarts(v, r);
    TraceAnswers(v, bricks, r, false, c0, Start(r), 0.0, 0, n);
    TraceAnswers(v, bricks, r, true, c0, Start(r), 0.0, 0, n);
    hide TraceFrom, Near, Far, Thick, BricksExact, Manhattan, StartCell, Start, Marching, SolidAt, Trace;
    if a.Some? {
      FineFindsWithinBudget(v, bricks, r, n, a.value.cell);
    }
    if b.Some? {
      FineFindsWithinBudget(v, bricks, r, n, b.value.cell);
    }
    if a.Some? && b.Some? {
      FirstIsUnique(v, r, a.value.cell, b.value.cell);
    }
  }

  // A trace only finds what is ahead of where it is.
  lemma {:induction false} TraceStaysAhead(v: seq<Word>, bricks: seq<Word>, r: Ray, skip: bool, s: Dda, t: real, n: nat)
    requires VoxelSized(v) && BrickSized(bricks) && Slanted(r) && TimesFit(r, s) && During(r, s.cell, t)
    ensures var h := TraceFrom(v, bricks, r, skip, s, n);
      h.Some? ==> AllOnWay(s.cell, r.d, h.value.cell) && SolidAt(v, h.value.cell)
    decreases n
  {
    hide SolidAt, During, TimesFit, FineStep, SkipStep, BrickIsEmpty;
    if n > 0 && InGrid(s.cell) && !SolidAt(v, s.cell) {
      var s', t' := StepAhead(bricks, r, skip, s, t);
      TraceStaysAhead(v, bricks, r, skip, s', t', n - 1);
    }
  }

  lemma StepAhead(bricks: seq<Word>, r: Ray, skip: bool, s: Dda, t: real) returns (s': Dda, t': real)
    requires BrickSized(bricks) && Slanted(r) && TimesFit(r, s) && During(r, s.cell, t) && InGrid(s.cell)
    ensures s' == Step(bricks, r, skip, s) && TimesFit(r, s') && During(r, s'.cell, t')
    ensures AllOnWay(s.cell, r.d, s'.cell)
  {
    s' := Step(bricks, r, skip, s);
    FineMoves(r, s, s.cell);
    FineStepFacts(r, s, t);
    SkipStepFacts(r, s, t);
    hide During, TimesFit, FineStep, SkipStep, BrickIsEmpty;
    t' := if s' == FineStep(r, s) then FineStep(r, s).tEnter else BrickSkipT(r, s.cell) + NUDGE;
  }

  // ------------------------------------------------------------------------------------------
  // Surface normals
  // ------------------------------------------------------------------------------------------

  // No axis moves by more than one unit in a unit of time.
  predicate Gentle(r: Ray) {
    AbsR(r.d.x) <= 1.0 && AbsR(r.d.y) <= 1.0 && AbsR(r.d.z) <= 1.0
  }

  // The normal points against the ray, and at the reported time the ray meets the plane of the
  // cell's face with that normal.
  ghost predicate OnFace(r: Ray, c: Cell, tEnter: real, nrm: Cell)
    requires Slanted(r)
  {
    || (nrm == Cell(-Sign(r.d.x), 0, 0) && EnterTimes(r, c).x == tEnter)
    || (nrm == Cell(0, -Sign(r.d.y), 0) && EnterTimes(r, c).y == tEnter)
    || (nrm == Cell(0, 0, -Sign(r.d.z)) && EnterTimes(r, c).z == tEnter)
  }

  lemma FineFace(r: Ray, s: Dda)
    requires Slanted(r) && TimesFit(r, s)
    ensures var s' := FineStep(r, s); OnFace(r, s'.cell, s'.tEnter, s'.nrm)
  {
    NextSlab(r.p.x, r.d.x, s.cell.x);
    NextSlab(r.p.y, r.d.y, s.cell.y);
    NextSlab(r.p.z, r.d.z, s.cell.z);
    hide EnterAt, LeaveAt, Sign;
  }

  // A jump lands in the first slab past the brick's face.
  lemma AxisLands(p: real, d: real, v: int, tBrick: real)
    requires d != 0.0 && AbsR(d) <= 1.0 && tBrick == BrickFace(p, d, v)
    ensures EnterAt(p, d, Along(p, d, tBrick + NUDGE).Floor) == tBrick
  {
    hide *;
    var last := LastOf(v, d);
    FaceIsLast(p, d, v);
    NextSlab(p, d, last);
    AtEdge(p, d, last);
    AlongAdd(p, d, tBrick, NUDGE);
    PastEdge(last, d);
  }

  lemma AtEdge(p: real, d: real, v: int)
    requires d != 0.0
    ensures Along(p, d, LeaveAt(p, d, v)) == Edge(v, d)
  {
    QuotientBack(Edge(v, d) - p, d);
    hide Mul;
  }

  lemma PastEdge(v: int, d: real)
    requires d != 0.0 && AbsR(d) <= 1.0
    ensures (Edge(v, d) + Mul(NUDGE, d)).Floor == v + Sign(d)
  {
    Nudged(d);
    hide Mul;
  }

  lemma Nudged(d: real)
    requires d != 0.0 && AbsR(d) <= 1.0
    ensures if d > 0.0 then 0.0 < Mul(NUDGE, d) < 1.0 else -1.0 < Mul(NUDGE, d) < 0.0
  {
  }

  lemma SkipFace(r: Ray, s: Dda)
    requires Slanted(r) && Gentle(r)
    ensures var s' := SkipStep(r, s); OnFace(r, s'.cell, s'.tEnter, s'.nrm)
  {
    var tBrick := BrickSkipT(r, s.cell);
    hide EnterAt, Along, BrickFace, Edge, Sign;
    if tBrick == BrickFace(r.p.x, r.d.x, s.cell.x) {
      AxisLands(r.p.x, r.d.x, s.cell.x, tBrick);
    }
    if tBrick == BrickFace(r.p.y, r.d.y, s.cell.y) {
      AxisLands(r.p.y, r.d.y, s.cell.y, tBrick);
    }
    if tBrick == BrickFace(r.p.z, r.d.z, s.cell.z) {
      AxisLands(r.p.z, r.d.z, s.cell.z, tBrick);
    }
  }

  // Wherever a hit is not the starting cell, its normal is that of a face whose plane the reported
  // point lies in.
  lemma {:induction false} NormalIsFace(v: seq<Word>, bricks: seq<Word>, r: Ray, skip: bool, s: Dda, t: real, n: nat)
    requires VoxelSized(v) && BrickSized(bricks) && Slanted(r) && Gentle(r) && TimesFit(r, s) && During(r, s.cell, t)
    requires !SolidAt(v, s.cell) || OnFace(r, s.cell, s.tEnter, s.nrm)
    ensures var h := TraceFrom(v, bricks, r, skip, s, n);
      h.Some? ==> OnFace(r, h.value.cell, h.value.tEnter, h.value.nrm)
    decreases n
  {
    hide SolidAt, During, TimesFit, FineStep, SkipStep, BrickIsEmpty, OnFace, Gentle;
    if n > 0 && InGrid(s.cell) && !SolidAt(v, s.cell) {
      var s', t' := StepAhead(bricks, r, skip, s, t);
      FineFace(r, s);
      SkipFace(r, s);
      NormalIsFace(v, bricks, r, skip, s', t', n - 1);
    }
  }

  // Stepping reports the very time at which the cell is entered.
  lemma {:induction false} FineTimeIsNear(v: seq<Word>, bricks: seq<Word>, r: Ray, s: Dda, t: real, n: nat)
    requires VoxelSized(v) && BrickSized(bricks) && Slanted(r) && TimesFit(r, s) && During(r, s.cell, t)
    requires !SolidAt(v, s.cell) || Near(r, s.cell) == s.tEnter
    ensures var h := TraceFrom(v, bricks, r, false, s, n); h.Some? ==> h.value.tEnter == Near(r, h.value.cell)
    decreases n
  {
    hide SolidAt, During, TimesFit, FineStep, Near;
    if n > 0 && InGrid(s.cell) && !SolidAt(v, s.cell) {
      FineStepFacts(r, s, t);
      FineTimeIsNear(v, bricks, r, FineStep(r, s), FineStep(r, s).tEnter, n - 1);
    }
  }

  // ------------------------------------------------------------------------------------------
  // The tracer itself
  // ------------------------------------------------------------------------------------------

  const DIR_MIN: real := 1.0e-5
  const ENTRY_NUDGE: real := 0.001
  const UP := Cell(0, 1, 0)

  // A component is left alone unless it is close to 0; then it points forward by very little.
  function DeZero(d: real): (r: real)
    ensures AbsR(r) >= 0.00001 && AbsR(r - d) < 0.00002 && (if AbsR(d) >= 0.00001 then r == d else r == 0.00001)
  {
    if AbsR(d) < DIR_MIN then DIR_MIN else d
  }

  function DeZeroed(d: Vec3): (r: Vec3)
    ensures NonZero(r)
  {
    Vec3(DeZero(d.x), DeZero(d.y), DeZero(d.z))
  }

  // When a ray is in the grid's box, on each axis.
  function BoxEnters(ro: Vec3, rd: Vec3): Vec3
    requires NonZero(rd)
  {
    var box := WORLD_DIM as real;
    Vec3(MinR((0.0 - ro.x) / rd.x, (box - ro.x) / rd.x), MinR((0.0 - ro.y) / rd.y, (box - ro.y) / rd.y),
         MinR((0.0 - ro.z) / rd.z, (box - ro.z) / rd.z))
  }

  function BoxLeaves(ro: Vec3, rd: Vec3): Vec3
    requires NonZero(rd)
  {
    var box := WORLD_DIM as real;
    Vec3(MaxR((0.0 - ro.x) / rd.x, (box - ro.x) / rd.x), MaxR((0.0 - ro.y) / rd.y, (box - ro.y) / rd.y),
         MaxR((0.0 - ro.z) / rd.z, (box - ro.z) / rd.z))
  }

  // The face of the box a ray enters through, or up for a ray from inside.
  function EntryFace(ts: Vec3, rd: Vec3): Cell {
    if Largest(ts) <= 0.0 then Cell(0, 1, 0)
    else if ts.x >= ts.y && ts.x >= ts.z then Cell(-Sign(rd.x), 0, 0)
    else if ts.y >= ts.z then Cell(0, -Sign(rd.y), 0)
    else Cell(0, 0, -Sign(rd.z))
  }

  // The ray to march along, from just inside the grid's box, or nothing when the box is missed.
  function Entry(ro: Vec3, rd: Vec3): (r: Option<Ray>)
    requires NonZero(rd)
    ensures r.Some? ==> r.value.d == rd
  {
    var ts := BoxEnters(ro, rd);
    var tBox := Largest(ts);
    if Smallest(BoxLeaves(ro, rd)) < MaxR(tBox, 0.0) then None
    else
      var t := MaxR(tBox, 0.0) + ENTRY_NUDGE;
      Some(Ray(Vec3(Along(ro.x, rd.x, t), Along(ro.y, rd.y, t), Along(ro.z, rd.z, t)), rd, EntryFace(ts, rd)))
  }

  lemma BoxAxis(p: real, d: real, t: real)
    requires d != 0.0 && 0.0 <= Along(p, d, t) <= WORLD_DIM as real
    ensures var t0, t1 := (0.0 - p) / d, (WORLD_DIM as real - p) / d; MinR(t0, t1) <= t <= MaxR(t0, t1)
  {
    TimeAgainst(p, d, 0.0, t);
    TimeAgainst(p, d, WORLD_DIM as real, t);
    Quotients(0.0 - p, WORLD_DIM as real - p, d);
    hide Along;
  }

  // A ray that misses the box meets no cell of the grid.
  lemma NoEntryNoCell(ro: Vec3, rd: Vec3, c: Cell, t: real)
    requires NonZero(rd) && Entry(ro, rd) == None && InGrid(c) && t >= 0.0
    ensures !Meets(ro, rd, c, t)
  {
    hide Along;
    if Meets(ro, rd, c, t) {
      BoxAxis(ro.x, rd.x, t);
      BoxAxis(ro.y, rd.y, t);
      BoxAxis(ro.z, rd.z, t);
    }
  }

  // What the tracer answers for a ray.
  function Traced(v: seq<Word>, bricks: seq<Word>, ro: Vec3, dir: Vec3, skip: bool, n: nat): Option<Hit>
    requires VoxelSized(v) && BrickSized(bricks)
  {
    match Entry(ro, DeZeroed(dir))
    case None => None
    case Some(r) => Trace(v, bricks, r, skip, n)
  }

  // The primary and bounce ray trace, with the hit position, the surface normal and the material.
  method TraceVoxel(v: seq<Word>, bricks: seq<Word>, ro: Vec3, dir: Vec3, maxSteps: nat, emptySkip: bool)
    returns (hit: Option<Hit>, hp: Vec3, nrm: Cell, mat: Word)
    requires BricksExact(v, bricks)
    ensures hit == Traced(v, bricks, ro, dir, emptySkip, maxSteps)
    ensures hit.Some? ==>
      var r, h := Entry(ro, DeZeroed(dir)), hit.value;
      && r.Some? && hp == PointAt(r.value, h.tEnter) && nrm == h.nrm
      && InGrid(h.cell) && mat == Peek(v, WORLD_DIM, h.cell) != 0
  {
    hit, hp, nrm, mat := None, ro, UP, 0;
    hide DeZeroed, Entry, Start, Step, BricksExact, Along;
    var entry := Entry(ro, DeZeroed(dir));
    if entry == None {
      return;
    }
    var r := entry.value;
    SizesOf(v, bricks);
    var s := Start(r);
    for k := 0 to maxSteps
      invariant TraceFrom(v, bricks, r, emptySkip, s, maxSteps - k) == Trace(v, bricks, r, emptySkip, maxSteps)
    {
      if !InGrid(s.cell) {
        return;
      }
      var w := Peek(v, WORLD_DIM, s.cell);
      if w != 0 {
        return Some(Hit(s.cell, s.tEnter, s.nrm)), PointAt(r, s.tEnter), s.nrm, w;
      }
      s := Step(bricks, r, emptySkip, s);
    }
  }

  // ------------------------------------------------------------------------------------------
  // Shadow rays: a step comes before each test, and a jump is followed by a test of its own
  // ------------------------------------------------------------------------------------------

  function OccludedFrom(v: seq<Word>, bricks: seq<Word>, r: Ray, skip: bool, s: Dda, n: nat): bool
    requires VoxelSized(v) && BrickSized(bricks) && Slanted(r)
    decreases n
  {
    if n == 0 then false
    else
      var s1 := FineStep(r, s);
      if !InGrid(s1.cell) then false
      else if SolidAt(v, s1.cell) then true
      else if skip && BrickIsEmpty(bricks, s1.cell) && SkipStep(r, s1).cell != s1.cell then
        var s2 := SkipStep(r, s1);
        if !InGrid(s2.cell) then false
        else if SolidAt(v, s2.cell) then true
        else OccludedFrom(v, bricks, r, skip, s2, n - 1)
      else OccludedFrom(v, bricks, r, skip, s1, n - 1)
  }

  // The shadow ray finds something in sight, or all that is in sight is more than n cells away.
  ghost predicate ShadowAnswers(v: seq<Word>, r: Ray, c0: Cell, n: nat, occluded: bool)
    requires VoxelSized(v) && Slanted(r)
  {
    if occluded then exists e :: Sight(v, r, e) else forall e :: Sight(v, r, e) ==> Manhattan(e, c0) > n
  }

  lemma AllFar(v: seq<Word>, r: Ray, c0: Cell, s: Dda, t: real, k: nat)
    requires VoxelSized(v) && Slanted(r) && Thick(v, r, 0.0) && Marching(v, r, c0, s, t, k) && !SolidAt(v, s.cell)
    ensures ShadowAnswers(v, r, c0, k, false)
  {
    forall e | Sight(v, r, e)
      ensures Manhattan(e, c0) > k
    {
      SightIsAhead(v, r, c0, s, t, k, e);
      Further(c0, r.d, s.cell, e);
    }
  }

  lemma NothingLeft(v: seq<Word>, r: Ray, c0: Cell, s: Dda, t: real, k: nat, gate: Cell, n: nat)
    requires VoxelSized(v) && Slanted(r) && Thick(v, r, 0.0) && Marching(v, r, c0, s, t, k)
    requires InGrid(gate) && AllOnWay(gate, r.d, s.cell) && !InGrid(s.cell)
    ensures ShadowAnswers(v, r, c0, n, false)
  {
    hide Marching, Thick, Sight;
    forall e
      ensures !Sight(v, r, e)
    {
      NothingBeyond(v, r, c0, s, t, k, gate, e);
    }
  }

  lemma SomethingFound(v: seq<Word>, r: Ray, c0: Cell, s: Dda, t: real, k: nat, n: nat)
    requires VoxelSized(v) && Slanted(r) && Thick(v, r, 0.0) && Marching(v, r, c0, s, t, k) && k > 0
    requires SolidAt(v, s.cell)
    ensures ShadowAnswers(v, r, c0, n, true)
  {
    ArrivedIsFirst(v, r, c0, s, t, k);
    hide Marching, Thick, Sight;
  }

  // From a tested cell inside the grid.
  lemma {:induction false} OccludedAnswers(v: seq<Word>, bricks: seq<Word>, r: Ray, skip: bool, c0: Cell, s: Dda,
                                           t: real, k: nat, n: nat)
    requires BricksExact(v, bricks) && Slanted(r) && Thick(v, r, Needed(skip)) && Marching(v, r, c0, s, t, k)
    requires InGrid(s.cell) && !SolidAt(v, s.cell)
    ensures ShadowAnswers(v, r, c0, k + n, OccludedFrom(v, bricks, r, skip, s, n))
    decreases n
  {
    SizesOf(v, bricks);
    ThickEnough(v, r, Needed(skip));
    FineMoves(r, s, s.cell);
    hide Marching, Thick, SolidAt, Sight, IsFirst, BricksExact, FineStep, SkipStep, ShadowAnswers, BrickIsEmpty,
         AllOnWay;
    if n == 0 {
      AllFar(v, r, c0, s, t, k);
    } else {
      var s1 := FineStep(r, s);
      var t1 := s1.tEnter;
      FineKeeps(v, r, c0, s, t, k);
      if !InGrid(s1.cell) {
        NothingLeft(v, r, c0, s1, t1, k + 1, s.cell, k + n);
      } else if SolidAt(v, s1.cell) {
        SomethingFound(v, r, c0, s1, t1, k + 1, k + n);
      } else if skip && BrickIsEmpty(bricks, s1.cell) {
        OccludedJump(v, bricks, r, c0, s, s1, t1, k, n);
      } else {
        OccludedAnswers(v, bricks, r, skip, c0, s1, t1, k + 1, n - 1);
      }
    }
  }

  lemma OccludedJump(v: seq<Word>, bricks: seq<Word>, r: Ray, c0: Cell, s: Dda, s1: Dda, t1: real, k: nat, n: nat)
    requires BricksExact(v, bricks) && Slanted(r) && Thick(v, r, NUDGE) && Marching(v, r, c0, s1, t1, k + 1) && n > 0
    requires s1 == FineStep(r, s) && InGrid(s1.cell) && !SolidAt(v, s1.cell) && BrickIsEmpty(bricks, s1.cell)
    ensures ShadowAnswers(v, r, c0, k + n, OccludedFrom(v, bricks, r, true, s, n))
    decreases n, 0
  {
    var s2 := SkipStep(r, s1);
    ThickEnough(v, r, NUDGE);
    SkipKeeps(v, bricks, r, c0, s1, t1, k + 1);
    JumpAhead(r, s1, t1, v, c0, k + 1);
    hide Marching, Thick, SolidAt, Sight, IsFirst, BricksExact, FineStep, SkipStep, ShadowAnswers, BrickIsEmpty,
         AllOnWay;
    if !InGrid(s2.cell) {
      NothingLeft(v, r, c0, s2, s2.tEnter + NUDGE, k + 2, s1.cell, k + n);
    } else if SolidAt(v, s2.cell) {
      SomethingFound(v, r, c0, s2, s2.tEnter + NUDGE, k + 2, k + n);
    } else {
      OccludedAnswers(v, bricks, r, true, c0, s2, s2.tEnter + NUDGE, k + 2, n - 1);
      FartherStill(v, r, c0, k + 2 + (n - 1), k + n, OccludedFrom(v, bricks, r, true, s2, n - 1));
    }
  }

  lemma JumpAhead(r: Ray, s: Dda, t: real, v: seq<Word>, c0: Cell, k: nat)
    requires VoxelSized(v) && Slanted(r) && Marching(v, r, c0, s, t, k)
    ensures AllOnWay(s.cell, r.d, SkipStep(r, s).cell) && BrickOf(SkipStep(r, s).cell) != BrickOf(s.cell)
  {
    SkipStepFacts(r, s, t);
  }

  lemma FartherStill(v: seq<Word>, r: Ray, c0: Cell, m: nat, n: nat, b: bool)
    requires VoxelSized(v) && Slanted(r) && ShadowAnswers(v, r, c0, m, b) && n <= m
    ensures ShadowAnswers(v, r, c0, n, b)
  {
  }

  lemma ShadowFromStart(v: seq<Word>, bricks: seq<Word>, r: Ray, skip: bool, n: nat)
    requires BricksExact(v, bricks) && Slanted(r) && Thick(v, r, Needed(skip)) && !SolidAt(v, StartCell(r.p)) && n > 0
    requires var s1 := FineStep(r, Start(r)); InGrid(s1.cell) && !SolidAt(v, s1.cell)
    ensures ShadowAnswers(v, r, StartCell(r.p), n, OccludedFrom(v, bricks, r, skip, Start(r), n))
  {
    var c0 := StartCell(r.p);
    var s := Start(r);
    var s1 := FineStep(r, s);
    ThickEnough(v, r, Needed(skip));
    MarchStarts(v, r);
    FineKeeps(v, r, c0, s, 0.0, 0);
    hide Marching, Thick, SolidAt, Sight, BricksExact, FineStep, SkipStep, BrickIsEmpty, Start, StartCell, Manhattan,
         ShadowAnswers;
    if skip && BrickIsEmpty(bricks, s1.cell) {
      OccludedJump(v, bricks, r, c0, s, s1, s1.tEnter, 0, n);
    } else {
      OccludedAnswers(v, bricks, r, skip, c0, s1, s1.tEnter, 1, n - 1);
    }
  }

  // From an empty start, in the grid or next to it, jumping does not change a shadow - provided
  // that the budget reaches the first solid cell in sight.
  lemma SkippingKeepsShadows(v: seq<Word>, bricks: seq<Word>, r: Ray, n: nat)
    requires BricksExact(v, bricks) && Slanted(r) && Thick(v, r, NUDGE) && !SolidAt(v, StartCell(r.p))
    requires (exists e :: Sight(v, r, e)) ==> exists e :: Sight(v, r, e) && Manhattan(e, StartCell(r.p)) <= n
    ensures OccludedFrom(v, bricks, r, false, Start(r), n) == OccludedFrom(v, bricks, r, true, Start(r), n)
  {
    SizesOf(v, bricks);
    ThickEnough(v, r, NUDGE);
    hide Thick, SolidAt, Sight, BricksExact, FineStep, SkipStep, BrickIsEmpty, Start, StartCell, Manhattan;
    var s1 := FineStep(r, Start(r));
    if n > 0 && InGrid(s1.cell) && !SolidAt(v, s1.cell) {
      ShadowFromStart(v, bricks, r, false, n);
      ShadowFromStart(v, bricks, r, true, n);
    }
  }

  // Whether something is in the way of a shadow ray.
  function Occluded(v: seq<Word>, bricks: seq<Word>, p: Vec3, dir: Vec3, skip: bool, n: nat): bool
    requires VoxelSized(v) && BrickSized(bricks)
  {
    var r := Ray(p, DeZeroed(dir), UP);
    OccludedFrom(v, bricks, r, skip, Start(r), n)
  }

  method OccludedRay(v: seq<Word>, bricks: seq<Word>, p: Vec3, dir: Vec3, maxSteps: nat, emptySkip: bool)
    returns (occluded: bool)
    requires BricksExact(v, bricks)
    ensures occluded == Occluded(v, bricks, p, dir, emptySkip, maxSteps)
  {
    hide DeZeroed, Start, FineStep, SkipStep, BricksExact;
    var r := Ray(p, DeZeroed(dir), UP);
    SizesOf(v, bricks);
    var s := Start(r);
    for i := 0 to maxSteps
      invariant OccludedFrom(v, bricks, r, emptySkip, s, maxSteps - i)
        == OccludedFrom(v, bricks, r, emptySkip, Start(r), maxSteps)
    {
      s := FineStep(r, s);
      if !InGrid(s.cell) {
        return false;
      }
      if Peek(v, WORLD_DIM, s.cell) != 0 {
        return true;
      }
      if emptySkip && BrickIsEmpty(bricks, s.cell) {
        var jump := SkipStep(r, s);
        if jump.cell != s.cell {
          s := jump;
          if !InGrid(s.cell) {
            return false;
          }
          if Peek(v, WORLD_DIM, s.cell) != 0 {
            return true;
          }
        }
      }
    }
    return false;
  }
}
