// Cells, boxes and the flat encodings shared by the world, the renderer and the debris field.
module Grid {
  type Byte = b: int | 0 <= b < 0x100
  type Word = w: int | 0 <= w < 0x1_0000_0000

  // Side of the cubic voxel grid, shared by the world and the renderer.
  const WORLD_DIM: nat := 128

  datatype Option<+T> = None | Some(value: T)

  datatype Cell = Cell(x: int, y: int, z: int)

  // An integer box; the maximum corner is exclusive.
  datatype Box = Box(x0: int, y0: int, z0: int, x1: int, y1: int, z1: int)

  predicate InCube(dim: nat, c: Cell) {
    0 <= c.x < dim && 0 <= c.y < dim && 0 <= c.z < dim
  }

  predicate InGrid(c: Cell) {
    InCube(WORLD_DIM, c)
  }

  predicate InBox(b: Box, c: Cell) {
    b.x0 <= c.x < b.x1 && b.y0 <= c.y < b.y1 && b.z0 <= c.z < b.z1
  }

  predicate EmptyBox(b: Box) {
    b.x0 >= b.x1 || b.y0 >= b.y1 || b.z0 >= b.z1
  }

  // The box lies inside the voxel grid (an empty box may still have corners outside of it).
  predicate BoxInGrid(b: Box) {
    0 <= b.x0 && 0 <= b.y0 && 0 <= b.z0 && b.x1 <= WORLD_DIM && b.y1 <= WORLD_DIM && b.z1 <= WORLD_DIM
  }

  // The part of a box that lies in the grid.
  function Clamped(b: Box): (k: Box)
    ensures BoxInGrid(k) && (BoxInGrid(b) ==> k == b)
  {
    Box(Max(0, b.x0), Max(0, b.y0), Max(0, b.z0), Min(WORLD_DIM, b.x1), Min(WORLD_DIM, b.y1), Min(WORLD_DIM, b.z1))
  }

  lemma ClampedHolds(b: Box, c: Cell)
    ensures InBox(Clamped(b), c) <==> InBox(b, c) && InGrid(c)
  {
  }

  function Min(a: int, b: int): int { if b < a then b else a }

  function Max(a: int, b: int): int { if a < b then b else a }

  function Clamp(v: int, lo: int, hi: int): int {
    if v < lo then lo else if hi < v then hi else v
  }

  function Gap(a: int, b: int): nat {
    if a < b then b - a else a - b
  }

  // Order in which nested z, y, x loops meet the cells.
  predicate Precedes(a: Cell, b: Cell) {
    a.z < b.z || (a.z == b.z && (a.y < b.y || (a.y == b.y && a.x < b.x)))
  }

  // ------------------------------------------------------------------------------------------
  // Flat index of a cell in a cubic grid
  // ------------------------------------------------------------------------------------------

  function Flat(dim: nat, c: Cell): int {
    c.z * dim * dim + c.y * dim + c.x
  }

  function Unflat(dim: nat, i: nat): Cell
    requires dim > 0
  {
    Cell(i % dim, i / dim % dim, i / dim / dim)
  }

  lemma MulMonotone(a: int, b: int, k: nat)
    requires a <= b
    ensures a * k <= b * k
  {
  }

  // Horner form of a two-digit number: it stays below the product of its bases.
  lemma DigitBound(hi: nat, lo: nat, rows: nat, cols: nat)
    requires hi < rows && lo < cols
    ensures 0 <= hi * cols + lo < rows * cols
  {
    MulMonotone(hi + 1, rows, cols);
    MulMonotone(0, hi, cols);
  }

  // ... and its digits can be read back.
  lemma DigitsUnique(hi: int, lo: int, hi': int, lo': int, cols: nat)
    requires 0 <= lo < cols && 0 <= lo' < cols
    requires hi * cols + lo == hi' * cols + lo'
    ensures hi == hi' && lo == lo'
  {
    if hi < hi' {
      MulMonotone(hi + 1, hi', cols);
    } else if hi' < hi {
      MulMonotone(hi' + 1, hi, cols);
    }
  }

  // The numbers are ordered like their digits.
  lemma DigitsOrder(hi: int, lo: int, hi': int, lo': int, cols: nat)
    requires 0 <= lo < cols && 0 <= lo' < cols
    ensures hi * cols + lo < hi' * cols + lo' <==> hi < hi' || (hi == hi' && lo < lo')
  {
    if hi < hi' {
      MulMonotone(hi + 1, hi', cols);
    } else if hi' < hi {
      MulMonotone(hi' + 1, hi, cols);
    }
  }

  lemma FlatHorner(dim: nat, c: Cell)
    ensures Flat(dim, c) == (c.z * dim + c.y) * dim + c.x
  {
  }

  // Flat is a bijection from the cube to [0, dim^3), with Unflat as its inverse.
  lemma FlatBound(dim: nat, c: Cell)
    requires InCube(dim, c)
    ensures 0 <= Flat(dim, c) < dim * dim * dim
  {
    FlatHorner(dim, c);
    DigitBound(c.z, c.y, dim, dim);
    DigitBound(c.z * dim + c.y, c.x, dim * dim, dim);
  }

  lemma FlatInjective(dim: nat, c: Cell, d: Cell)
    requires InCube(dim, c) && InCube(dim, d) && Flat(dim, c) == Flat(dim, d)
    ensures c == d
  {
    FlatHorner(dim, c);
    FlatHorner(dim, d);
    DigitsUnique(c.z * dim + c.y, c.x, d.z * dim + d.y, d.x, dim);
    DigitsUnique(c.z, c.y, d.z, d.y, dim);
  }

  // The cells are numbered in the order in which nested z, y, x loops meet them.
  lemma FlatFollowsLoops(dim: nat, c: Cell, d: Cell)
    requires InCube(dim, c) && InCube(dim, d)
    ensures Flat(dim, c) < Flat(dim, d) <==> Precedes(c, d)
  {
    FlatHorner(dim, c);
    FlatHorner(dim, d);
    DigitsOrder(c.z * dim + c.y, c.x, d.z * dim + d.y, d.x, dim);
    DigitsOrder(c.z, c.y, d.z, d.y, dim);
    DigitsOrder(d.z, d.y, c.z, c.y, dim);
  }

  lemma QuotientBound(i: nat, rows: nat, cols: nat)
    requires cols > 0 && i < rows * cols
    ensures i / cols < rows
  {
    if rows <= i / cols {
      MulMonotone(rows, i / cols, cols);
    }
  }

  lemma FlatSurjective(dim: nat, i: nat)
    requires i < dim * dim * dim
    ensures dim > 0 && InCube(dim, Unflat(dim, i)) && Flat(dim, Unflat(dim, i)) == i
  {
    QuotientBound(i, dim * dim, dim);
    QuotientBound(i / dim, dim, dim);
    FlatHorner(dim, Unflat(dim, i));
  }

  // The value a flat grid holds for a cell.
  function Peek(g: seq<Word>, dim: nat, c: Cell): Word
    requires |g| == dim * dim * dim && InCube(dim, c)
  {
    FlatBound(dim, c);
    g[Flat(dim, c)]
  }

  lemma PeekAfterWrite(g: seq<Word>, dim: nat, c: Cell, v: Word, d: Cell)
    requires |g| == dim * dim * dim && InCube(dim, c) && InCube(dim, d)
    ensures 0 <= Flat(dim, c) < |g|
    ensures Peek(g[Flat(dim, c) := v], dim, d) == if d == c then v else Peek(g, dim, d)
  {
    FlatBound(dim, c);
    FlatBound(dim, d);
    if Flat(dim, c) == Flat(dim, d) {
      FlatInjective(dim, c, d);
    }
  }

  // ------------------------------------------------------------------------------------------
  // Row-major index of a cell inside a box, as region uploads lay their cells out
  // ------------------------------------------------------------------------------------------

  function BoxIndex(b: Box, c: Cell): int {
    ((c.z - b.z0) * (b.y1 - b.y0) + (c.y - b.y0)) * (b.x1 - b.x0) + (c.x - b.x0)
  }

  function BoxSize(b: Box): int {
    (b.z1 - b.z0) * (b.y1 - b.y0) * (b.x1 - b.x0)
  }

  lemma BoxIndexBound(b: Box, c: Cell)
    requires InBox(b, c)
    ensures 0 <= BoxIndex(b, c) < BoxSize(b)
  {
    var dx, dy, dz := b.x1 - b.x0, b.y1 - b.y0, b.z1 - b.z0;
    DigitBound(c.z - b.z0, c.y - b.y0, dz, dy);
    DigitBound((c.z - b.z0) * dy + (c.y - b.y0), c.x - b.x0, dz * dy, dx);
  }

  lemma BoxIndexFollowsLoops(b: Box, c: Cell, d: Cell)
    requires InBox(b, c) && InBox(b, d)
    ensures BoxIndex(b, c) < BoxIndex(b, d) <==> Precedes(c, d)
  {
    var dx, dy := b.x1 - b.x0, b.y1 - b.y0;
    DigitsOrder((c.z - b.z0) * dy + c.y - b.y0, c.x - b.x0, (d.z - b.z0) * dy + d.y - b.y0, d.x - b.x0, dx);
    DigitsOrder(c.z - b.z0, c.y - b.y0, d.z - b.z0, d.y - b.y0, dy);
    DigitsOrder(d.z - b.z0, d.y - b.y0, c.z - b.z0, c.y - b.y0, dy);
  }
}
