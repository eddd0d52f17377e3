// Rotating by a unit quaternion: the two formulas invert each other, and one is a rotation matrix.
module Rotation {
  import opened Physics
  import opened Vectors

  // The cross product with -a, written out as the inverse rotation does.
  function CrossNegated(a: Vec3, v: Vec3): Vec3 {
    Vec3(Mul(-a.y, v.z) + Mul(a.z, v.y), Mul(-a.z, v.x) + Mul(a.x, v.z), Mul(-a.x, v.y) + Mul(a.y, v.x))
  }

  function Double(v: Vec3): Vec3 {
    Vec3(2.0 * v.x, 2.0 * v.y, 2.0 * v.z)
  }

  // v + w*t + u
  function Combine(v: Vec3, w: real, t: Vec3, u: Vec3): Vec3 {
    Vec3(v.x + Mul(w, t.x) + u.x, v.y + Mul(w, t.y) + u.y, v.z + Mul(w, t.z) + u.z)
  }

  function Axis(q: Pose): Vec3 {
    Vec3(q.qx, q.qy, q.qz)
  }

  // q * v * conj(q), as v + w*t + cross(q, t) with t = 2*cross(q, v).
  function QuatRotate(q: Pose, v: Vec3): Vec3 {
    var t := Double(Cross(Axis(q), v));
    Combine(v, q.qw, t, Cross(Axis(q), t))
  }

  // The same with the conjugate quaternion.
  function QuatRotateInv(q: Pose, v: Vec3): Vec3 {
    var t := Double(CrossNegated(Axis(q), v));
    Combine(v, q.qw, t, CrossNegated(Axis(q), t))
  }

  // An upright body is not rotated.
  lemma NoRotation(v: Vec3, px: real, py: real, pz: real)
    ensures QuatRotate(Pose(px, py, pz, 0.0, 0.0, 0.0, 1.0), v) == v
    ensures QuatRotateInv(Pose(px, py, pz, 0.0, 0.0, 0.0, 1.0), v) == v
  {
    hide Cross, CrossNegated, Double, Combine;
    NoCross(v);
    NoCross(Vec3(0.0, 0.0, 0.0));
    CombineNothing(v);
  }

  lemma CombineNothing(v: Vec3)
    ensures var o := Vec3(0.0, 0.0, 0.0); Combine(v, 1.0, o, o) == v && Double(o) == o
  {
    var r := Combine(v, 1.0, Vec3(0.0, 0.0, 0.0), Vec3(0.0, 0.0, 0.0));
    assert r.x == v.x && r.y == v.y && r.z == v.z;
  }

  lemma NoCross(v: Vec3)
    ensures var o := Vec3(0.0, 0.0, 0.0); Cross(o, v) == o && CrossNegated(o, v) == o
  {
    Nothing(v.x);
    Nothing(v.y);
    Nothing(v.z);
    hide Mul;
  }

  lemma Nothing(a: real)
    ensures Mul(0.0, a) == 0.0 && Mul(-0.0, a) == 0.0 && Mul(a, 0.0) == 0.0
  {
  }

  datatype Matrix = Matrix(a: Vec3, b: Vec3, c: Vec3)

  function Apply(m: Matrix, v: Vec3): Vec3 {
    Vec3(Dot(m.a, v), Dot(m.b, v), Dot(m.c, v))
  }

  function Transpose(m: Matrix): Matrix {
    Matrix(Vec3(m.a.x, m.b.x, m.c.x), Vec3(m.a.y, m.b.y, m.c.y), Vec3(m.a.z, m.b.z, m.c.z))
  }

  // The ten products of quaternion components that a rotation matrix is made of.
  datatype Products = Products(ww: real, xx: real, yy: real, zz: real, xy: real, wz: real, xz: real, wy: real, yz: real,
                               wx: real)

  function ProductsOf(q: Pose): Products {
    Products(Mul(q.qw, q.qw), Mul(q.qx, q.qx), Mul(q.qy, q.qy), Mul(q.qz, q.qz), Mul(q.qx, q.qy),
             Mul(q.qw, q.qz), Mul(q.qx, q.qz), Mul(q.qw, q.qy), Mul(q.qy, q.qz), Mul(q.qw, q.qx))
  }

  function MatrixOf(p: Products): Matrix {
    Matrix(Vec3(p.ww + p.xx - p.yy - p.zz, 2.0 * (p.xy - p.wz), 2.0 * (p.xz + p.wy)),
           Vec3(2.0 * (p.xy + p.wz), p.ww + p.yy - p.zz - p.xx, 2.0 * (p.yz - p.wx)),
           Vec3(2.0 * (p.xz - p.wy), 2.0 * (p.yz + p.wx), p.ww + p.zz - p.xx - p.yy))
  }

  function RotationMatrix(q: Pose): Matrix {
    MatrixOf(ProductsOf(q))
  }

  function Conjugate(q: Pose): Pose {
    q.(qx := -q.qx, qy := -q.qy, qz := -q.qz)
  }

  lemma Negate(a: real, b: real)
    ensures Mul(-a, b) == -Mul(a, b) && Mul(b, -a) == -Mul(b, a) && Mul(-a, -a) == Mul(a, a)
  {
  }

  lemma NegateBoth(a: real, b: real)
    ensures Mul(-a, -b) == Mul(a, b)
  {
  }

  lemma CrossNegates(q: Pose, v: Vec3)
    ensures CrossNegated(Axis(q), v) == Cross(Axis(Conjugate(q)), v)
  {
    Negate(q.qx, v.y); Negate(q.qx, v.z); Negate(q.qy, v.x); Negate(q.qy, v.z); Negate(q.qz, v.x); Negate(q.qz, v.y);
    hide Mul;
  }

  lemma InverseIsConjugate(q: Pose, v: Vec3)
    ensures QuatRotateInv(q, v) == QuatRotate(Conjugate(q), v)
  {
    CrossNegates(q, v);
    CrossNegates(q, Double(CrossNegated(Axis(q), v)));
    hide Cross, CrossNegated, Double, Combine, Axis;
  }

  lemma ConjugateMatrix(q: Pose)
    ensures RotationMatrix(Conjugate(q)) == Transpose(RotationMatrix(q))
    ensures Unit(q) ==> Unit(Conjugate(q))
  {
    var x, y, z, w := q.qx, q.qy, q.qz, q.qw;
    Negate(x, w); Negate(y, w); Negate(z, w);
    NegateBoth(x, y); NegateBoth(x, z); NegateBoth(y, z);
    assert (-x) * (-x) == x * x && (-y) * (-y) == y * y && (-z) * (-z) == z * z;
  }

  // The expanded form of one component of v + w*t + cross(q, t).
  lemma RotateComponent(x: real, y: real, z: real, w: real, a: real, b: real, c: real, tx: real, ty: real, tz: real)
    requires Mul(w, w) + Mul(x, x) + Mul(y, y) + Mul(z, z) == 1.0
    requires tx == 2.0 * (Mul(y, c) - Mul(z, b)) && ty == 2.0 * (Mul(z, a) - Mul(x, c))
    requires tz == 2.0 * (Mul(x, b) - Mul(y, a))
    ensures a + Mul(w, tx) + (Mul(y, tz) - Mul(z, ty))
      == Dot(Vec3(Mul(w, w) + Mul(x, x) - Mul(y, y) - Mul(z, z), 2.0 * (Mul(x, y) - Mul(w, z)),
                  2.0 * (Mul(x, z) + Mul(w, y))), Vec3(a, b, c))
  {
    ScaledDifference(w, y, c, z, b, tx);
    ScaledDifference(y, x, b, y, a, tz);
    ScaledDifference(z, z, a, x, c, ty);
    Commute(x, y);
    Commute(x, z);
    CollectTerms(a, b, c, Mul(w, w), Mul(x, x), Mul(y, y), Mul(z, z), Mul(x, y), Mul(w, z), Mul(x, z), Mul(w, y));
    hide Mul;
  }

  lemma ScaledDifference(k: real, p: real, q: real, r: real, s: real, t: real)
    requires t == 2.0 * (Mul(p, q) - Mul(r, s))
    ensures Mul(k, t) == 2.0 * Mul(Mul(k, p), q) - 2.0 * Mul(Mul(k, r), s)
  {
    assert k * (p * q) == Mul(k, p) * q;
    assert k * (r * s) == Mul(k, r) * s;
  }

  lemma CollectTerms(a: real, b: real, c: real, ww: real, xx: real, yy: real, zz: real, xy: real, wz: real, xz: real,
                     wy: real)
    requires ww + xx + yy + zz == 1.0
    ensures a + (2.0 * Mul(wy, c) - 2.0 * Mul(wz, b))
      + ((2.0 * Mul(xy, b) - 2.0 * Mul(yy, a)) - (2.0 * Mul(zz, a) - 2.0 * Mul(xz, c)))
      == Dot(Vec3(ww + xx - yy - zz, 2.0 * (xy - wz), 2.0 * (xz + wy)), Vec3(a, b, c))
  {
    assert (ww + xx + yy + zz) * a == a;
    assert (ww + xx - yy - zz) * a == a - 2.0 * (yy * a) - 2.0 * (zz * a);
  }

  lemma Commute(a: real, b: real)
    ensures Mul(a, b) == Mul(b, a)
  {
  }

  lemma RotateX(q: Pose, v: Vec3)
    requires Unit(q)
    ensures QuatRotate(q, v).x == Dot(RotationMatrix(q).a, v)
  {
    UnitSum(q);
    hide Mul, Unit;
    var t := Double(Cross(Axis(q), v));
    RotateComponent(q.qx, q.qy, q.qz, q.qw, v.x, v.y, v.z, t.x, t.y, t.z);
    hide Dot;
  }

  lemma RotateY(q: Pose, v: Vec3)
    requires Unit(q)
    ensures QuatRotate(q, v).y == Dot(RotationMatrix(q).b, v)
  {
    UnitSum(q);
    Commute(q.qy, q.qx);
    DotRotated(RotationMatrix(q).b, v);
    hide Mul, Unit;
    var t := Double(Cross(Axis(q), v));
    RotateComponent(q.qy, q.qz, q.qx, q.qw, v.y, v.z, v.x, t.y, t.z, t.x);
    hide Dot;
  }

  lemma RotateZ(q: Pose, v: Vec3)
    requires Unit(q)
    ensures QuatRotate(q, v).z == Dot(RotationMatrix(q).c, v)
  {
    UnitSum(q);
    Commute(q.qz, q.qx);
    Commute(q.qz, q.qy);
    DotRotated(RotationMatrix(q).c, v);
    hide Mul, Unit;
    var t := Double(Cross(Axis(q), v));
    RotateComponent(q.qz, q.qx, q.qy, q.qw, v.z, v.x, v.y, t.z, t.x, t.y);
    hide Dot;
  }

  lemma RotateIsMatrix(q: Pose, v: Vec3)
    requires Unit(q)
    ensures QuatRotate(q, v) == Apply(RotationMatrix(q), v)
  {
    hide QuatRotate, Dot, RotationMatrix;
    RotateX(q, v);
    RotateY(q, v);
    RotateZ(q, v);
  }

  ghost predicate Orthonormal(m: Matrix) {
    && Dot(m.a, m.a) == Dot(m.b, m.b) == Dot(m.c, m.c) == 1.0
    && Dot(m.a, m.b) == Dot(m.a, m.c) == Dot(m.b, m.c) == 0.0
  }

  // How the products multiply among themselves.
  ghost predicate RotationsAgree(p: Products) {
    && Mul(p.xy, p.xy) == Mul(p.xx, p.yy) && Mul(p.xz, p.xz) == Mul(p.xx, p.zz) && Mul(p.yz, p.yz) == Mul(p.yy, p.zz)
    && Mul(p.wx, p.wx) == Mul(p.ww, p.xx) && Mul(p.wy, p.wy) == Mul(p.ww, p.yy) && Mul(p.wz, p.wz) == Mul(p.ww, p.zz)
    && Mul(p.xy, p.wz) == Mul(p.xz, p.wy) == Mul(p.yz, p.wx)
    && Mul(p.xz, p.yz) == Mul(p.xy, p.zz) && Mul(p.xz, p.wx) == Mul(p.wz, p.xx)
    && Mul(p.wy, p.yz) == Mul(p.wz, p.yy) && Mul(p.wy, p.wx) == Mul(p.xy, p.ww)
    && Mul(p.xy, p.yz) == Mul(p.xz, p.yy) && Mul(p.xy, p.wx) == Mul(p.wy, p.xx)
    && Mul(p.wz, p.yz) == Mul(p.wy, p.zz) && Mul(p.wz, p.wx) == Mul(p.xz, p.ww)
    && Mul(p.xy, p.xz) == Mul(p.yz, p.xx) && Mul(p.xy, p.wy) == Mul(p.wx, p.yy)
    && Mul(p.wz, p.xz) == Mul(p.wx, p.zz) && Mul(p.wz, p.wy) == Mul(p.yz, p.ww)
  }

  lemma Regroup(a: real, b: real, c: real, d: real)
    ensures Mul(Mul(a, b), Mul(c, d)) == Mul(Mul(a, c), Mul(b, d)) == Mul(Mul(a, d), Mul(b, c))
    ensures Mul(a, b) == Mul(b, a) && Mul(c, d) == Mul(d, c) && Mul(a, c) == Mul(c, a) && Mul(b, d) == Mul(d, b)
    ensures Mul(a, d) == Mul(d, a) && Mul(b, c) == Mul(c, b)
    ensures Mul(Mul(a, c), Mul(b, d)) == Mul(Mul(b, d), Mul(a, c))
    ensures Mul(Mul(a, d), Mul(b, c)) == Mul(Mul(b, c), Mul(a, d))
  {
    assert (a * b) * (c * d) == (a * c) * (b * d);
    assert (a * b) * (c * d) == (a * d) * (b * c);
  }

  lemma ProductsConsistent(q: Pose)
    ensures RotationsAgree(ProductsOf(q))
  {
    hide Mul;
    var x, y, z, w := q.qx, q.qy, q.qz, q.qw;
    Regroup(x, y, x, y); Regroup(x, z, x, z); Regroup(y, z, y, z);
    Regroup(w, x, w, x); Regroup(w, y, w, y);
    Regroup(w, z, w, z);
    Regroup(x, y, w, z);
    Regroup(x, z, y, z); Regroup(x, z, w, x); Regroup(w, y, y, z); Regroup(w, y, w, x);
    Regroup(x, y, y, z); Regroup(x, y, w, x); Regroup(w, z, y, z); Regroup(w, z, w, x);
    Regroup(x, y, x, z); Regroup(x, y, w, y); Regroup(w, z, x, z); Regroup(w, z, w, y);
  }

  lemma SquareOfSum(p: real, q: real)
    ensures (p + q) * (p + q) == p * p + 2.0 * (p * q) + q * q
    ensures (p - q) * (p - q) == p * p - 2.0 * (p * q) + q * q
  {
  }

  // (a + b - c - d)^2 + 4 (p - q)^2 + 4 (r + s)^2 is the square of a + b + c + d.
  lemma RowNorm(a: real, b: real, c: real, d: real, p: real, q: real, r: real, s: real)
    requires Mul(p, p) == Mul(b, c) && Mul(q, q) == Mul(a, d) && Mul(r, r) == Mul(b, d) && Mul(s, s) == Mul(a, c)
    requires Mul(p, q) == Mul(r, s) && a + b + c + d == 1.0
    ensures Dot(Vec3(a + b - c - d, 2.0 * (p - q), 2.0 * (r + s)), Vec3(a + b - c - d, 2.0 * (p - q), 2.0 * (r + s)))
      == 1.0
  {
    SquareOfSum(p, q);
    SquareOfSum(r, s);
    var u, v := a + b, c + d;
    SquareOfSum(u, v);
    assert u * v == a * c + a * d + b * c + b * d;
    assert (u + v) * (u + v) == 1.0;
  }

  lemma RowCross(a: real, b: real, c: real, d: real, p: real, q: real, r: real, s: real, t: real, v: real)
    requires Mul(r, t) == Mul(p, d) && Mul(r, v) == Mul(q, b) && Mul(s, t) == Mul(q, c) && Mul(s, v) == Mul(p, a)
    ensures Dot(Vec3(a + b - c - d, 2.0 * (p - q), 2.0 * (r + s)), Vec3(2.0 * (p + q), a + c - d - b, 2.0 * (t - v)))
      == 0.0
  {
    assert (r + s) * (t - v) == p * d - q * b + q * c - p * a;
    assert (a + b - c - d) * (p + q) + (p - q) * (a + c - d - b) == 2.0 * (p * a - p * d + q * b - q * c);
  }

  lemma DotRotated(u: Vec3, v: Vec3)
    ensures Dot(u, v) == Dot(Vec3(u.y, u.z, u.x), Vec3(v.y, v.z, v.x)) == Dot(Vec3(u.z, u.x, u.y), Vec3(v.z, v.x, v.y))
    ensures Dot(u, v) == Dot(v, u)
  {
  }

  // The rows are cyclic permutations of each other.
  lemma RowsFromProducts(p: Products)
    requires RotationsAgree(p) && p.ww + p.xx + p.yy + p.zz == 1.0
    ensures Orthonormal(MatrixOf(p))
  {
    hide Mul, Dot;
    var m := MatrixOf(p);
    assert Dot(m.a, m.a) == 1.0 by { RowNorm(p.ww, p.xx, p.yy, p.zz, p.xy, p.wz, p.xz, p.wy); }
    assert Dot(m.b, m.b) == 1.0 by {
      CommuteAll(p);
      RowNorm(p.ww, p.yy, p.zz, p.xx, p.yz, p.wx, p.xy, p.wz);
      DotRotated(m.b, m.b);
    }
    assert Dot(m.c, m.c) == 1.0 by {
      CommuteAll(p);
      RowNorm(p.ww, p.zz, p.xx, p.yy, p.xz, p.wy, p.yz, p.wx);
      DotRotated(m.c, m.c);
    }
    assert Dot(m.a, m.b) == 0.0 by { RowCross(p.ww, p.xx, p.yy, p.zz, p.xy, p.wz, p.xz, p.wy, p.yz, p.wx); }
    assert Dot(m.b, m.c) == 0.0 by {
      CommuteAll(p);
      RowCross(p.ww, p.yy, p.zz, p.xx, p.yz, p.wx, p.xy, p.wz, p.xz, p.wy);
      DotRotated(m.b, m.c);
    }
    assert Dot(m.a, m.c) == 0.0 by {
      CommuteAll(p);
      RowCross(p.ww, p.zz, p.xx, p.yy, p.xz, p.wy, p.yz, p.wx, p.xy, p.wz);
      DotRotated(m.c, m.a);
      DotRotated(m.a, m.c);
    }
  }

  // The orders in which the cyclic uses of the product facts meet their factors.
  lemma CommuteAll(p: Products)
    ensures Mul(p.xx, p.zz) == Mul(p.zz, p.xx) && Mul(p.xx, p.yy) == Mul(p.yy, p.xx)
    ensures Mul(p.zz, p.yy) == Mul(p.yy, p.zz)
    ensures Mul(p.yz, p.xy) == Mul(p.xy, p.yz) && Mul(p.xz, p.yz) == Mul(p.yz, p.xz)
    ensures Mul(p.xz, p.xy) == Mul(p.xy, p.xz)
    ensures Mul(p.wx, p.wy) == Mul(p.wy, p.wx) && Mul(p.wz, p.wy) == Mul(p.wy, p.wz)
    ensures Mul(p.wx, p.wz) == Mul(p.wz, p.wx)
    ensures Mul(p.xy, p.wy) == Mul(p.wy, p.xy) && Mul(p.xz, p.wz) == Mul(p.wz, p.xz)
    ensures Mul(p.yz, p.wz) == Mul(p.wz, p.yz)
    ensures Mul(p.yz, p.wy) == Mul(p.wy, p.yz) && Mul(p.xz, p.wx) == Mul(p.wx, p.xz)
    ensures Mul(p.xy, p.wx) == Mul(p.wx, p.xy)
  {
  }

  lemma RowsOrthonormal(q: Pose)
    requires Unit(q)
    ensures Orthonormal(RotationMatrix(q))
  {
    ProductsConsistent(q);
    UnitSum(q);
    hide *;
    RowsFromProducts(ProductsOf(q));
    RotationMatrixDef(q);
  }

  lemma UnitSum(q: Pose)
    requires Unit(q)
    ensures var p := ProductsOf(q); p.ww + p.xx + p.yy + p.zz == 1.0
  {
  }

  lemma RotationMatrixDef(q: Pose)
    ensures RotationMatrix(q) == MatrixOf(ProductsOf(q))
  {
  }

  // A matrix with orthonormal rows is undone on the right by its transpose.
  lemma TransposeInverts(m: Matrix, v: Vec3)
    requires Orthonormal(m)
    ensures Apply(m, Apply(Transpose(m), v)) == v
  {
    TransposeRow(m, m.a, v);
    TransposeRow(m, m.b, v);
    TransposeRow(m, m.c, v);
    DotRotated(m.a, m.b);
    DotRotated(m.a, m.c);
    DotRotated(m.b, m.c);
  }

  lemma TransposeRow(m: Matrix, u: Vec3, v: Vec3)
    ensures Dot(u, Apply(Transpose(m), v)) == v.x * Dot(u, m.a) + v.y * Dot(u, m.b) + v.z * Dot(u, m.c)
  {
  }

  // The two rotations undo each other.
  lemma RotationsInvert(q: Pose, v: Vec3)
    requires Unit(q)
    ensures QuatRotate(q, QuatRotateInv(q, v)) == v
    ensures QuatRotateInv(q, QuatRotate(q, v)) == v
  {
    RotateUndoesInverse(q, v);
    var c := Conjugate(q);
    InverseIsConjugate(q, QuatRotate(q, v));
    InverseIsConjugate(c, v);
    ConjugateMatrix(q);
    assert Conjugate(c) == q;
    hide *;
    RotateUndoesInverse(c, v);
  }

  lemma RotateUndoesInverse(q: Pose, v: Vec3)
    requires Unit(q)
    ensures QuatRotate(q, QuatRotateInv(q, v)) == v
  {
    var c, m := Conjugate(q), RotationMatrix(q);
    InverseIsConjugate(q, v);
    ConjugateMatrix(q);
    RotateIsMatrix(c, v);
    RotateIsMatrix(q, QuatRotate(c, v));
    RowsOrthonormal(q);
    hide *;
    TransposeInverts(m, v);
  }
}
