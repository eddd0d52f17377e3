// Primary rays and the view-projection matrix that undoes them.
module Reprojection {
  import opened Grid
  import opened Vectors

  function Plus(a: Vec3, b: Vec3): Vec3 {
    Vec3(a.x + b.x, a.y + b.y, a.z + b.z)
  }

  function Times(k: real, a: Vec3): Vec3 {
    Vec3(Mul(k, a.x), Mul(k, a.y), Mul(k, a.z))
  }

  lemma MulRules(k: real, a: real, b: real)
    ensures Mul(k, a + b) == Mul(k, a) + Mul(k, b) && Mul(a + b, k) == Mul(a, k) + Mul(b, k)
    ensures Mul(a, Mul(k, b)) == Mul(k, Mul(a, b)) && Mul(Mul(k, a), b) == Mul(k, Mul(a, b))
  {
    assert a * (k * b) == k * (a * b) && (k * a) * b == k * (a * b);
  }

  lemma DotPlus(r: Vec3, a: Vec3, b: Vec3)
    ensures Dot(r, Plus(a, b)) == Dot(r, a) + Dot(r, b)
  {
    MulRules(r.x, a.x, b.x);
    MulRules(r.y, a.y, b.y);
    MulRules(r.z, a.z, b.z);
    hide Mul;
  }

  lemma DotTimes(r: Vec3, k: real, a: Vec3)
    ensures Dot(r, Times(k, a)) == Mul(k, Dot(r, a)) && Dot(Times(k, r), a) == Mul(k, Dot(r, a))
  {
    MulRules(k, r.x, a.x);
    MulRules(k, r.y, a.y);
    MulRules(k, r.z, a.z);
    MulRules(k, Mul(r.x, a.x), Mul(r.y, a.y));
    MulRules(k, Mul(r.x, a.x) + Mul(r.y, a.y), Mul(r.z, a.z));
    hide Mul;
  }

  // ------------------------------------------------------------------------------------------
  // The camera basis
  // ------------------------------------------------------------------------------------------

  datatype Camera = Camera(pos: Vec3, fwd: Vec3, right: Vec3, up: Vec3, tf: real, aspect: real)

  ghost predicate Orthonormal(c: Camera) {
    && Dot(c.fwd, c.fwd) == 1.0 && Dot(c.right, c.right) == 1.0 && Dot(c.up, c.up) == 1.0
    && Dot(c.right, c.fwd) == 0.0 && Dot(c.up, c.fwd) == 0.0 && Dot(c.right, c.up) == 0.0 && Dot(c.up, c.right) == 0.0
    && Dot(c.fwd, c.right) == 0.0 && Dot(c.fwd, c.up) == 0.0
  }

  const NO_CAMERA :=
    Camera(Vec3(0.0, 0.0, 0.0), Vec3(0.0, 0.0, 1.0), Vec3(1.0, 0.0, 0.0), Vec3(0.0, 1.0, 0.0), 1.0, 1.0)

  const WORLD_UP := Vec3(0.0, 1.0, 0.0)
  const NORM_MIN: real := 1.0e-8

  function Divided(v: Vec3, l: real): Vec3 {
    if l > NORM_MIN then Vec3(v.x / l, v.y / l, v.z / l) else v
  }

  // The camera of a frame from the sines and cosines of its pitch and yaw; `len` is the length
  // of the unnormalised right vector.
  function CameraOf(pos: Vec3, cp: real, sp: real, cy: real, sy: real, len: real, tf: real, aspect: real): Camera {
    var fwd := Vec3(Mul(cp, sy), sp, Mul(cp, cy));
    var right := Divided(Cross(fwd, WORLD_UP), len);
    Camera(pos, fwd, right, Cross(right, fwd), tf, aspect)
  }

  lemma ForwardIsUnit(cp: real, sp: real, cy: real, sy: real)
    requires cp * cp + sp * sp == 1.0 && cy * cy + sy * sy == 1.0
    ensures var f := Vec3(Mul(cp, sy), sp, Mul(cp, cy)); Dot(f, f) == 1.0
  {
    var c2 := cp * cp;
    assert (cp * sy) * (cp * sy) == c2 * (sy * sy) && (cp * cy) * (cp * cy) == c2 * (cy * cy);
    assert c2 * (sy * sy) + c2 * (cy * cy) == c2 * (sy * sy + cy * cy);
  }

  // The cross product is orthogonal to both factors, and its length follows from theirs.
  lemma CrossFacts(a: Vec3, b: Vec3)
    ensures var c := Cross(a, b);
      && Dot(c, a) == 0.0 && Dot(c, b) == 0.0 && Dot(a, c) == 0.0 && Dot(b, c) == 0.0
      && Dot(c, c) == Mul(Dot(a, a), Dot(b, b)) - Mul(Dot(a, b), Dot(a, b))
  {
    var c := Cross(a, b);
    assert c.x * a.x + c.y * a.y + c.z * a.z == 0.0;
    assert c.x * b.x + c.y * b.y + c.z * b.z == 0.0;
    Lagrange(a, b);
  }

  lemma Lagrange(a: Vec3, b: Vec3)
    ensures Dot(Cross(a, b), Cross(a, b)) == Mul(Dot(a, a), Dot(b, b)) - Mul(Dot(a, b), Dot(a, b))
  {
    Swap(a.y, b.z, a.z, b.y);
    Swap(a.z, b.x, a.x, b.z);
    Swap(a.x, b.y, a.y, b.x);
    SquareProduct(a.x, b.x); SquareProduct(a.x, b.y); SquareProduct(a.x, b.z);
    SquareProduct(a.y, b.x); SquareProduct(a.y, b.y); SquareProduct(a.y, b.z);
    SquareProduct(a.z, b.x); SquareProduct(a.z, b.y); SquareProduct(a.z, b.z);
    SquareDifference(Mul(a.y, b.z), Mul(a.z, b.y));
    SquareDifference(Mul(a.z, b.x), Mul(a.x, b.z));
    SquareDifference(Mul(a.x, b.y), Mul(a.y, b.x));
    ProductOfSums(Mul(a.x, a.x), Mul(a.y, a.y), Mul(a.z, a.z), Mul(b.x, b.x), Mul(b.y, b.y), Mul(b.z, b.z));
    SquareOfSum(Mul(a.x, b.x), Mul(a.y, b.y), Mul(a.z, b.z));
    hide Mul;
  }

  lemma Swap(a: real, b: real, c: real, d: real)
    ensures Mul(Mul(a, b), Mul(c, d)) == Mul(Mul(a, d), Mul(c, b))
  {
    assert a * b * (c * d) == a * d * (c * b);
  }

  lemma SquareProduct(a: real, b: real)
    ensures Mul(Mul(a, b), Mul(a, b)) == Mul(Mul(a, a), Mul(b, b))
  {
    assert a * b * (a * b) == a * a * (b * b);
  }

  lemma SquareDifference(p: real, q: real)
    ensures Mul(p - q, p - q) == Mul(p, p) + Mul(q, q) - 2.0 * Mul(p, q)
  {
  }

  lemma ProductOfSums(a: real, b: real, c: real, x: real, y: real, z: real)
    ensures Mul(a + b + c, x + y + z)
      == Mul(a, x) + Mul(a, y) + Mul(a, z) + Mul(b, x) + Mul(b, y) + Mul(b, z) + Mul(c, x) + Mul(c, y) + Mul(c, z)
  {
  }

  lemma SquareOfSum(a: real, b: real, c: real)
    ensures Mul(a + b + c, a + b + c)
      == Mul(a, a) + Mul(b, b) + Mul(c, c) + 2.0 * Mul(a, b) + 2.0 * Mul(b, c) + 2.0 * Mul(c, a)
  {
  }

  // For every pitch that is not straight up or down, and every yaw, the basis is orthonormal.
  lemma BasisIsOrthonormal(pos: Vec3, cp: real, sp: real, cy: real, sy: real, len: real, tf: real, aspect: real)
    requires cp * cp + sp * sp == 1.0 && cy * cy + sy * sy == 1.0
    requires len > 0.00000001
    requires var r := Cross(Vec3(Mul(cp, sy), sp, Mul(cp, cy)), WORLD_UP); Mul(len, len) == Dot(r, r)
    ensures Orthonormal(CameraOf(pos, cp, sp, cy, sy, len, tf, aspect))
  {
    var c := CameraOf(pos, cp, sp, cy, sy, len, tf, aspect);
    ForwardIsUnit(cp, sp, cy, sy);
    RightIsUnit(c.fwd, len);
    CrossFacts(c.right, c.fwd);
    assert Mul(1.0, 1.0) - Mul(0.0, 0.0) == 1.0;
    hide Dot, Cross, Mul, Divided;
  }

  // The camera looks along its yaw, raised by its pitch; its right is level and its up leans back.
  lemma CameraAxes(pos: Vec3, cp: real, sp: real, cy: real, sy: real, len: real, tf: real, aspect: real)
    requires cp * cp + sp * sp == 1.0 && cy * cy + sy * sy == 1.0 && cp > 0.0 && len >= 0.0
    requires var r := Cross(Vec3(Mul(cp, sy), sp, Mul(cp, cy)), WORLD_UP); Mul(len, len) == Dot(r, r)
    ensures len > 0.00000001 ==>
      CameraOf(pos, cp, sp, cy, sy, len, tf, aspect)
        == Camera(pos, Vec3(cp * sy, sp, cp * cy), Vec3(-cy, 0.0, sy), Vec3(-(sp * sy), cp, -(sp * cy)), tf, aspect)
    // all but straight up or down, the right vector is left unnormalised
    ensures len <= 0.00000001 ==> CameraOf(pos, cp, sp, cy, sy, len, tf, aspect).right == Vec3(-(cp * cy), 0.0, cp * sy)
  {
    var r := Cross(Vec3(Mul(cp, sy), sp, Mul(cp, cy)), WORLD_UP);
    assert r == Vec3(-(cp * cy), 0.0, cp * sy);
    assert Dot(r, r) == cp * cp * (cy * cy + sy * sy);
    if len <= 0.00000001 {
      return;
    }
    SameLength(len, cp);
    assert -(cp * cy) / cp == -cy && cp * sy / cp == sy;
    assert Divided(r, len) == Vec3(-cy, 0.0, sy);
    assert sy * (cp * sy) + cy * (cp * cy) == cp * (sy * sy + cy * cy);
  }

  lemma SameLength(a: real, b: real)
    requires a > 0.0 && b > 0.0 && Mul(a, a) == b * b
    ensures a == b
  {
    if a < b {
      LongerSquare(a, b);
    } else if b < a {
      LongerSquare(b, a);
    }
  }

  lemma LongerSquare(a: real, b: real)
    requires 0.0 < a < b
    ensures a * a < b * b
  {
    assert a * a < a * b && a * b < b * b;
  }

  lemma RightIsUnit(f: Vec3, len: real)
    requires len > NORM_MIN && Mul(len, len) == Dot(Cross(f, WORLD_UP), Cross(f, WORLD_UP))
    ensures var r := Divided(Cross(f, WORLD_UP), len);
      Dot(r, r) == 1.0 && Dot(r, f) == 0.0 && Dot(f, r) == 0.0
  {
    hide Dot, Times, Divided, Cross, Mul;
    var w := Cross(f, WORLD_UP);
    var k := Reciprocal(len);
    DividedIsTimes(w, len, k);
    CrossFacts(f, WORLD_UP);
    DotTimes(Times(k, w), k, w);
    DotTimes(w, k, w);
    DotTimes(w, k, f);
    DotTimes(f, k, w);
  }

  lemma Reciprocal(len: real) returns (k: real)
    requires len > 0.0
    ensures k == 1.0 / len && Mul(k, Mul(k, Mul(len, len))) == 1.0 && Mul(k, 0.0) == 0.0
  {
    k := 1.0 / len;
    assert k * len == 1.0;
    assert k * (k * (len * len)) == (k * len) * (k * len);
  }

  lemma DividedIsTimes(v: Vec3, len: real, k: real)
    requires len > NORM_MIN && k == 1.0 / len
    ensures Divided(v, len) == Times(k, v)
  {
    assert v.x / len == k * v.x && v.y / len == k * v.y && v.z / len == k * v.z;
  }

  // ------------------------------------------------------------------------------------------
  // The matrix
  // ------------------------------------------------------------------------------------------

  const GUARD: real := 1.0e-6

  datatype Row = Row(v: Vec3, w: real)

  // Rows of the row-major view-projection matrix.
  function RowX(c: Camera): Row {
    var inv := 1.0 / MaxR(Mul(c.tf, c.aspect), GUARD);
    Row(Times(inv, c.right), -Mul(inv, Dot(c.right, c.pos)))
  }

  function RowY(c: Camera): Row {
    var inv := 1.0 / MaxR(c.tf, GUARD);
    Row(Times(inv, c.up), -Mul(inv, Dot(c.up, c.pos)))
  }

  function RowW(c: Camera): Row {
    Row(c.fwd, -Dot(c.fwd, c.pos))
  }

  // mul(row, float4(p, 1))
  function Transform(r: Row, p: Vec3): real {
    Dot(r.v, p) + r.w
  }

  // Direction of the ray through a point of the screen, in normalised device coordinates.
  function RayDir(c: Camera, nx: real, ny: real): Vec3 {
    Plus(c.fwd, Plus(Times(Mul(nx, Mul(c.tf, c.aspect)), c.right), Times(Mul(ny, c.tf), c.up)))
  }

  lemma TransformIs(c: Camera, r: Vec3, inv: real, p: Vec3, a: Vec3)
    requires p == Plus(c.pos, a)
    ensures Transform(Row(Times(inv, r), -Mul(inv, Dot(r, c.pos))), p) == Mul(inv, Dot(r, a))
    ensures Transform(Row(r, -Dot(r, c.pos)), p) == Dot(r, a)
  {
    DotTimes(r, inv, p);
    DotPlus(r, c.pos, a);
    MulRules(inv, Dot(r, c.pos), Dot(r, a));
    hide Dot, Mul, Times, Plus;
  }

  // The components of a point on a ray along the camera's axes.
  lemma RayComponents(c: Camera, nx: real, ny: real, k: real)
    requires Orthonormal(c)
    ensures var a := Times(k, RayDir(c, nx, ny));
      && Dot(c.fwd, a) == k
      && Dot(c.right, a) == Mul(k, Mul(nx, Mul(c.tf, c.aspect)))
      && Dot(c.up, a) == Mul(k, Mul(ny, c.tf))
  {
    var al, be := Mul(nx, Mul(c.tf, c.aspect)), Mul(ny, c.tf);
    assert Mul(al, 1.0) == al && Mul(al, 0.0) == 0.0 && Mul(be, 1.0) == be && Mul(be, 0.0) == 0.0 && Mul(k, 1.0) == k;
    RayAlong(c, c.fwd, al, be, k);
    RayAlong(c, c.right, al, be, k);
    RayAlong(c, c.up, al, be, k);
    hide Dot, Mul, Times, Plus;
  }

  lemma RayAlong(c: Camera, r: Vec3, al: real, be: real, k: real)
    ensures Dot(r, Times(k, Plus(c.fwd, Plus(Times(al, c.right), Times(be, c.up))))) ==
      Mul(k, Dot(r, c.fwd) + (Mul(al, Dot(r, c.right)) + Mul(be, Dot(r, c.up))))
  {
    var d := Plus(c.fwd, Plus(Times(al, c.right), Times(be, c.up)));
    DotTimes(r, k, d);
    DotPlus(r, c.fwd, Plus(Times(al, c.right), Times(be, c.up)));
    DotPlus(r, Times(al, c.right), Times(be, c.up));
    DotTimes(r, al, c.right);
    DotTimes(r, be, c.up);
    hide Dot, Mul, Times, Plus;
  }

  // What a guarded field-of-view factor leaves of a coordinate.
  lemma GuardExact(f: real, n: real, k: real)
    requires k > 0.0
    ensures var x := Mul(1.0 / MaxR(f, GUARD), Mul(k, Mul(n, f)));
      && (n == 0.0 || f >= GUARD <==> x / k == n)
  {
    var m := MaxR(f, GUARD);
    var inv := 1.0 / m;
    assert inv * m == 1.0 && inv > 0.0;
    var x := inv * (k * (n * f));
    var g := inv * f;
    assert x == k * (n * g) by { assert inv * (k * (n * f)) == k * (n * (inv * f)); }
    Quotient(x, k, n * g);
    if n != 0.0 && f < GUARD {
      assert g != 1.0 by { assert inv * m - inv * f == inv * (m - f) > 0.0; }
      NotFixed(n, g);
    } else if n == 0.0 {
      assert n * g == 0.0;
    } else {
      assert g == 1.0;
    }
  }

  lemma Quotient(x: real, k: real, v: real)
    requires k > 0.0 && x == k * v
    ensures x / k == v
  {
    assert (x / k) * k == x;
    assert (x / k - v) * k == 0.0;
  }

  lemma NotFixed(n: real, g: real)
    requires n != 0.0 && g != 1.0
    ensures n * g != n
  {
    assert n * g - n == n * (g - 1.0);
  }

  // Projecting a point of a primary ray: clip.w is its depth, and dividing by it gives back the
  // screen coordinates the ray was made from - unless a scale term is below the guard.
  lemma ProjectionInvertsRays(c: Camera, nx: real, ny: real, k: real)
    requires Orthonormal(c) && k > 0.0
    ensures var p := Plus(c.pos, Times(k, RayDir(c, nx, ny)));
      && Transform(RowW(c), p) == k == Dot(c.fwd, Times(k, RayDir(c, nx, ny)))
      && (Transform(RowX(c), p) / k == nx <==> nx == 0.0 || Mul(c.tf, c.aspect) >= GUARD)
      && (Transform(RowY(c), p) / k == ny <==> ny == 0.0 || c.tf >= GUARD)
  {
    var a := Times(k, RayDir(c, nx, ny));
    var p := Plus(c.pos, a);
    RayComponents(c, nx, ny, k);
    TransformIs(c, c.fwd, 0.0, p, a);
    TransformIs(c, c.right, 1.0 / MaxR(Mul(c.tf, c.aspect), GUARD), p, a);
    TransformIs(c, c.up, 1.0 / MaxR(c.tf, GUARD), p, a);
    GuardExact(Mul(c.tf, c.aspect), nx, k);
    GuardExact(c.tf, ny, k);
    hide Dot, Mul, Times, Plus, Transform, RayDir, Orthonormal;
  }

  // ------------------------------------------------------------------------------------------
  // Pixels
  // ------------------------------------------------------------------------------------------

  datatype ScreenSize = ScreenSize(w: nat, h: nat)

  type Screen = s: ScreenSize | s.w > 0 && s.h > 0 witness ScreenSize(1, 1)

  // Device coordinates of a position on a screen of w by h pixels; y points up.
  function DeviceX(x: real, w: real): real
    requires w > 0.0
  {
    x / w * 2.0 - 1.0
  }

  function DeviceY(y: real, h: real): real
    requires h > 0.0
  {
    -(y / h * 2.0 - 1.0)
  }

  // Pixel column of a device coordinate, or nothing when it is off the screen.
  function Column(nx: real, w: nat): (px: int)
    requires w > 0
    ensures -1 <= px < w
  {
    var u := nx * 0.5 + 0.5;
    if 0.0 <= u < 1.0 then FloorBelow(u, w); (u * w as real).Floor else -1
  }

  function RowOf(ny: real, h: nat): (py: int)
    requires h > 0
    ensures -1 <= py < h
  {
    var v := -ny * 0.5 + 0.5;
    if 0.0 <= v < 1.0 then FloorBelow(v, h); (v * h as real).Floor else -1
  }

  lemma FloorBelow(u: real, n: nat)
    requires 0.0 <= u < 1.0 && n > 0
    ensures 0 <= (u * n as real).Floor < n
  {
    assert 0.0 <= u * n as real < n as real;
  }

  lemma Fraction(a: real, m: real, u: real)
    requires 0.0 <= a < m && u == a / m
    ensures u * m == a && 0.0 <= u < 1.0
  {
  }

  lemma PixelBack(i: nat, n: nat)
    requires i < n
    ensures Column(DeviceX(i as real + 0.5, n as real), n) == i
    ensures RowOf(DeviceY(i as real + 0.5, n as real), n) == i
  {
    Fraction(i as real + 0.5, n as real, (i as real + 0.5) / n as real);
    assert (i as real + 0.5).Floor == i;
  }

  // ------------------------------------------------------------------------------------------
  // Which pixel of the previous frame saw the same point
  // ------------------------------------------------------------------------------------------

  const DEPTH_MIN: real := 1.0e-4

  datatype View = View(x: Row, y: Row, w: Row)

  function ViewOf(c: Camera): View {
    View(RowX(c), RowY(c), RowW(c))
  }

  // What a primary ray met: a point, and whether it lies on a surface.
  datatype Surface = Surface(pos: Vec3, hit: bool)

  function Distance2(a: Vec3, b: Vec3): real {
    var d := Vec3(a.x - b.x, a.y - b.y, a.z - b.z);
    Dot(d, d)
  }

  // Close enough to be the same point, the more so the nearer it is.
  predicate SamePoint(was: Surface, p: Vec3, depth: real) {
    var tol := MaxR(0.75, depth * 0.02);
    was.hit && Distance2(was.pos, p) <= Mul(tol, tol)
  }

  // The pixel that a view with these previous surfaces saw the point in, if any.
  function Reproject(v: View, s: Screen, p: Vec3, was: seq<Surface>): (q: Option<nat>)
    requires |was| == s.w * s.h
    ensures q.Some? ==> q.value < |was|
  {
    var depth := Transform(v.w, p);
    if depth <= DEPTH_MIN then None
    else
      var px, py := Column(Transform(v.x, p) / depth, s.w), RowOf(Transform(v.y, p) / depth, s.h);
      if px < 0 || py < 0 then None
      else
        DigitBound(py, px, s.h, s.w);
        var q := py * s.w + px;
        if SamePoint(was[q], p, depth) then Some(q) else None
  }

  // ------------------------------------------------------------------------------------------
  // What that means: the pixel whose cone holds the point, if it saw the same surface
  // ------------------------------------------------------------------------------------------

  function From(c: Camera, p: Vec3): Vec3 {
    Vec3(p.x - c.pos.x, p.y - c.pos.y, p.z - c.pos.z)
  }

  // A distance along one of the camera's axes is what a ray through position x, from 0 to n across
  // the screen, has at depth k; f is the scale of the axis.
  predicate Across(dist: real, k: real, f: real, x: real, n: nat)
    requires n > 0
  {
    dist == Mul(k, Mul(2.0 * (x / n as real) - 1.0, f))
  }

  // Some position in pixel i of an axis is that of the ray through the distance at the depth.
  ghost predicate AxisCone(dist: real, k: real, f: real, i: nat, n: nat)
    requires n > 0
  {
    exists x :: i as real <= x < i as real + 1.0 && Across(dist, k, f, x, n)
  }

  // The point lies in the cone of rays through a pixel, further than a ten-thousandth from the camera;
  // rows are counted from the top.
  ghost predicate InCone(c: Camera, s: Screen, q: nat, p: Vec3) {
    var v := From(c, p);
    var k := Dot(c.fwd, v);
    && k > 0.0001
    && AxisCone(Dot(c.right, v), k, MaxR(Mul(c.tf, c.aspect), 0.000001), q % s.w, s.w)
    && AxisCone(-Dot(c.up, v), k, MaxR(c.tf, 0.000001), q / s.w, s.h)
  }

  // Two surface points are the same one as far as the renderer can tell: no further apart than three
  // quarters of a unit or a fiftieth of the depth.
  predicate SameSurface(c: Camera, was: Surface, now: Surface) {
    var d := Vec3(was.pos.x - now.pos.x, was.pos.y - now.pos.y, was.pos.z - now.pos.z);
    var near, far := Mul(0.75, 0.75), Dot(c.fwd, From(c, now.pos)) / 50.0;
    was.hit && now.hit && (Dot(d, d) <= near || (far > 0.75 && Dot(d, d) <= Mul(far, far)))
  }

  lemma AxisIsPixel(dist: real, k: real, f: real, i: nat, n: nat)
    requires k > 0.0 && f > 0.0 && i < n
    ensures var u := (Mul(1.0 / f, dist) / k) * 0.5 + 0.5;
      AxisCone(dist, k, f, i, n) <==> 0.0 <= u < 1.0 && (u * n as real).Floor == i
  {
    var nx := Mul(1.0 / f, dist) / k;
    var u := nx * 0.5 + 0.5;
    var x := u * n as real;
    Unscaled(dist, k, f);
    Positioned(u, n);
    hide Mul;
    if AxisCone(dist, k, f, i, n) {
      var y :| i as real <= y < i as real + 1.0 && Across(dist, k, f, y, n);
      OnlyOne(k, f, 2.0 * (y / n as real) - 1.0, nx);
      Positioned(y / n as real, n);
      WholePosition(y, n);
      UnitPosition(y, n, i);
    }
    if 0.0 <= u < 1.0 && x.Floor == i {
      assert Across(dist, k, f, x, n);
    }
  }

  lemma Unscaled(dist: real, k: real, f: real)
    requires k > 0.0 && f > 0.0
    ensures dist == Mul(k, Mul(Mul(1.0 / f, dist) / k, f))
  {
    var inv := 1.0 / f;
    assert inv * f == 1.0;
    var nx := (inv * dist) / k;
    assert nx * k == inv * dist;
    assert k * (nx * f) == (nx * k) * f == (inv * dist) * f == (inv * f) * dist;
  }

  lemma OnlyOne(k: real, f: real, a: real, b: real)
    requires k > 0.0 && f > 0.0 && Mul(k, Mul(a, f)) == Mul(k, Mul(b, f))
    ensures a == b
  {
    PositiveProduct(k, f);
    assert k * (a * f) - k * (b * f) == (k * f) * (a - b);
    NoFactor(k * f, a - b);
  }

  lemma PositiveProduct(p: real, q: real)
    requires p > 0.0 && q > 0.0
    ensures p * q > 0.0
  {
  }

  lemma NoFactor(p: real, q: real)
    requires p > 0.0 && p * q == 0.0
    ensures q == 0.0
  {
  }

  lemma Positioned(u: real, n: nat)
    requires n > 0
    ensures (u * n as real) / n as real == u
  {
  }

  lemma WholePosition(x: real, n: nat)
    requires n > 0
    ensures (x / n as real) * n as real == x
  {
  }

  lemma UnitPosition(x: real, n: nat, i: nat)
    requires i < n && i as real <= x < i as real + 1.0
    ensures 0.0 <= x / n as real < 1.0
  {
  }

  lemma ConeIsProjection(c: Camera, s: Screen, q: nat, p: Vec3)
    requires q < s.w * s.h
    ensures InCone(c, s, q, p) <==>
      var v, depth := ViewOf(c), Transform(RowW(c), p);
      && depth > DEPTH_MIN && Column(Transform(v.x, p) / depth, s.w) == q % s.w
      && RowOf(Transform(v.y, p) / depth, s.h) == q / s.w
  {
    hide Dot, Mul, Transform, AxisCone, From, RowX, RowY, RowW, Column, RowOf, MaxR;
    var a := From(c, p);
    var k, fx, fy := Dot(c.fwd, a), MaxR(Mul(c.tf, c.aspect), GUARD), MaxR(c.tf, GUARD);
    QuotientBound(q, s.h, s.w);
    ComponentsOf(c, p);
    if k > DEPTH_MIN {
      AxisIsPixel(Dot(c.right, a), k, fx, q % s.w, s.w);
      AxisIsPixel(-Dot(c.up, a), k, fy, q / s.w, s.h);
      Turned(Dot(c.up, a), k, fy);
      ColumnIs(Mul(1.0 / fx, Dot(c.right, a)) / k, s.w, q % s.w);
      RowIs(Mul(1.0 / fy, Dot(c.up, a)) / k, s.h, q / s.w);
    }
  }

  lemma ColumnIs(nx: real, w: nat, i: nat)
    requires w > 0
    ensures var u := nx * 0.5 + 0.5; Column(nx, w) == i <==> 0.0 <= u < 1.0 && (u * w as real).Floor == i
  {
  }

  lemma RowIs(ny: real, h: nat, i: nat)
    requires h > 0
    ensures var u := -ny * 0.5 + 0.5; RowOf(ny, h) == i <==> 0.0 <= u < 1.0 && (u * h as real).Floor == i
  {
  }

  // Clip space, before the division, in terms of the distances along the camera's axes.
  lemma ComponentsOf(c: Camera, p: Vec3)
    ensures var a := From(c, p);
      && MaxR(Mul(c.tf, c.aspect), GUARD) > 0.0 && MaxR(c.tf, GUARD) > 0.0
      && Transform(RowW(c), p) == Dot(c.fwd, a)
      && Transform(RowX(c), p) == Mul(1.0 / MaxR(Mul(c.tf, c.aspect), GUARD), Dot(c.right, a))
      && Transform(RowY(c), p) == Mul(1.0 / MaxR(c.tf, GUARD), Dot(c.up, a))
  {
    var a := From(c, p);
    assert p == Plus(c.pos, a);
    hide Dot, Mul, Times, Plus, Transform, From;
    TransformIs(c, c.fwd, 1.0, p, a);
    TransformIs(c, c.right, 1.0 / MaxR(Mul(c.tf, c.aspect), GUARD), p, a);
    TransformIs(c, c.up, 1.0 / MaxR(c.tf, GUARD), p, a);
  }

  lemma Turned(dist: real, k: real, f: real)
    requires k > 0.0 && f > 0.0
    ensures Mul(1.0 / f, -dist) / k == -(Mul(1.0 / f, dist) / k)
  {
    assert (1.0 / f) * -dist == -((1.0 / f) * dist);
  }

  lemma SamePointIsSurface(c: Camera, was: Surface, now: Surface)
    requires now.hit
    ensures SamePoint(was, now.pos, Dot(c.fwd, From(c, now.pos))) <==> SameSurface(c, was, now)
  {
    var depth := Dot(c.fwd, From(c, now.pos));
    assert depth * 0.02 == depth / 50.0;
    hide Dot, From;
    if depth / 50.0 > 0.75 {
      WiderSquare(depth / 50.0);
    }
  }

  lemma WiderSquare(far: real)
    requires far > 0.75
    ensures Mul(0.75, 0.75) < Mul(far, far)
  {
  }

  // Reprojection finds the pixel in whose cone the point lies, provided that it saw the same surface.
  lemma ReprojectByCone(c: Camera, s: Screen, p: Surface, was: seq<Surface>, q: nat)
    requires |was| == s.w * s.h && q < |was| && p.hit && InCone(c, s, q, p.pos)
    ensures Reproject(ViewOf(c), s, p.pos, was) == if SameSurface(c, was[q], p) then Some(q) else None
  {
    var v := ViewOf(c);
    ConeIsProjection(c, s, q, p.pos);
    DepthIs(c, p.pos);
    SamePointIsSurface(c, was[q], p);
    QuotientBound(q, s.h, s.w);
    RowAndColumn(q, s.w);
    hide InCone, SamePoint, SameSurface, Transform, Column, RowOf, From, Dot;
    ReprojectAt(v, s, p.pos, was, q % s.w, q / s.w);
  }

  lemma DepthIs(c: Camera, p: Vec3)
    ensures Transform(RowW(c), p) == Dot(c.fwd, From(c, p))
  {
    ComponentsOf(c, p);
    hide Dot, Transform;
  }

  // A point in no pixel's cone is not found at all.
  lemma NoCone(c: Camera, s: Screen, p: Vec3, was: seq<Surface>)
    requires |was| == s.w * s.h && forall q :: 0 <= q < |was| ==> !InCone(c, s, q, p)
    ensures Reproject(ViewOf(c), s, p, was) == None
  {
    var v, depth := ViewOf(c), Transform(RowW(c), p);
    hide InCone, SamePoint, Transform, Column, RowOf;
    if depth > DEPTH_MIN {
      var px, py := Column(Transform(v.x, p) / depth, s.w), RowOf(Transform(v.y, p) / depth, s.h);
      if px >= 0 && py >= 0 {
        DigitBound(py, px, s.h, s.w);
        BackFromIndex(px, py, s.w);
        ConeIsProjection(c, s, py * s.w + px, p);
      }
    }
  }

  lemma BackFromIndex(px: nat, py: nat, w: nat)
    requires px < w
    ensures (py * w + px) % w == px && (py * w + px) / w == py
  {
    DigitsUnique((py * w + px) / w, (py * w + px) % w, py, px, w);
  }

  // The rays of a pixel do lie in its cone.
  lemma RaysAreInCone(c: Camera, s: Screen, x: real, y: real, k: real)
    requires Orthonormal(c) && Wide(c) && k > DEPTH_MIN && 0.0 <= x < s.w as real && 0.0 <= y < s.h as real
    ensures InCone(c, s, y.Floor * s.w + x.Floor,
                   Plus(c.pos, Times(k, RayDir(c, DeviceX(x, s.w as real), DeviceY(y, s.h as real)))))
  {
    var nx, ny := DeviceX(x, s.w as real), DeviceY(y, s.h as real);
    var a := Times(k, RayDir(c, nx, ny));
    var p := Plus(c.pos, a);
    RayComponents(c, nx, ny, k);
    BackFromIndex(x.Floor, y.Floor, s.w);
    assert From(c, p) == a;
    DownIsUp(k, ny, c.tf);
    hide Dot, Mul, Times, Plus, RayDir, Orthonormal, From;
    assert Across(Dot(c.right, a), k, Mul(c.tf, c.aspect), x, s.w);
    assert Across(-Dot(c.up, a), k, c.tf, y, s.h);
  }

  lemma DownIsUp(k: real, n: real, f: real)
    ensures -Mul(k, Mul(n, f)) == Mul(k, Mul(-n, f))
  {
    assert k * (-n * f) == -(k * (n * f));
  }

  // The point at a given depth under a pixel.
  function PointUnder(c: Camera, s: Screen, p: nat, k: real): Vec3 {
    var nx, ny := DeviceX((p % s.w) as real + 0.5, s.w as real), DeviceY((p / s.w) as real + 0.5, s.h as real);
    Plus(c.pos, Times(k, RayDir(c, nx, ny)))
  }

  // The scale terms are above the guard.
  predicate Wide(c: Camera) {
    Mul(c.tf, c.aspect) >= GUARD && c.tf >= GUARD
  }

  // Seen again by a still camera, the point under a pixel is looked for in that very pixel.
  lemma StillCameraHitsSamePixel(c: Camera, s: Screen, p: nat, k: real)
    requires Orthonormal(c) && Wide(c) && k > 0.0 && p < s.w * s.h
    ensures var v, a := ViewOf(c), PointUnder(c, s, p, k);
      && Transform(v.w, a) == k
      && Column(Transform(v.x, a) / k, s.w) == p % s.w && RowOf(Transform(v.y, a) / k, s.h) == p / s.w
  {
    var px, py := p % s.w, p / s.w;
    var nx, ny := DeviceX(px as real + 0.5, s.w as real), DeviceY(py as real + 0.5, s.h as real);
    QuotientBound(p, s.h, s.w);
    ProjectionInvertsRays(c, nx, ny, k);
    PixelBack(px, s.w);
    PixelBack(py, s.h);
    hide DeviceX, DeviceY, Column, RowOf, Transform, RowX, RowY, RowW, RayDir, Plus, Times, Orthonormal, Mul;
  }

  // So the pixel keeps its history exactly if a surface was seen there before and it is not
  // closer than the least depth.
  lemma StillCameraKeepsHistory(c: Camera, s: Screen, p: nat, k: real, was: seq<Surface>)
    requires Orthonormal(c) && Wide(c) && k > 0.0 && |was| == s.w * s.h && p < |was|
    requires was[p].hit ==> was[p].pos == PointUnder(c, s, p, k)
    ensures Reproject(ViewOf(c), s, PointUnder(c, s, p, k), was) == if was[p].hit && k > DEPTH_MIN then Some(p)
      else None
  {
    hide PointUnder, Column, RowOf, Transform, ViewOf, SamePoint, Orthonormal, Wide;
    var v, a := ViewOf(c), PointUnder(c, s, p, k);
    StillCameraHitsSamePixel(c, s, p, k);
    SameAsItself(was[p], a, k);
    QuotientBound(p, s.h, s.w);
    RowAndColumn(p, s.w);
    ReprojectAt(v, s, a, was, p % s.w, p / s.w);
  }

  lemma ReprojectAt(v: View, s: Screen, a: Vec3, was: seq<Surface>, px: nat, py: nat)
    requires |was| == s.w * s.h && Transform(v.w, a) != 0.0
    requires px == Column(Transform(v.x, a) / Transform(v.w, a), s.w)
    requires py == RowOf(Transform(v.y, a) / Transform(v.w, a), s.h)
    ensures 0 <= py * s.w + px < |was|
    ensures Reproject(v, s, a, was) ==
      if Transform(v.w, a) > DEPTH_MIN && SamePoint(was[py * s.w + px], a, Transform(v.w, a))
      then Some(py * s.w + px) else None
  {
    DigitBound(py, px, s.h, s.w);
    hide Column, RowOf, Transform, SamePoint;
  }

  lemma RowAndColumn(p: nat, w: nat)
    requires w > 0
    ensures p / w * w + p % w == p
  {
  }

  lemma SameAsItself(was: Surface, a: Vec3, depth: real)
    requires was.hit ==> was.pos == a
    ensures SamePoint(was, a, depth) <==> was.hit
  {
    hide Mul, Distance2;
    NoDistance(a);
    SquareNotNegative(MaxR(0.75, depth * 0.02));
  }

  lemma NoDistance(a: Vec3)
    ensures Distance2(a, a) == 0.0
  {
  }

  lemma SquareNotNegative(r: real)
    ensures Mul(r, r) >= 0.0
  {
  }
}
