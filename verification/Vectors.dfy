// Vectors of reals.
module Vectors {
  datatype Vec3 = Vec3(x: real, y: real, z: real)

  function MinR(a: real, b: real): real { if b < a then b else a }

  function MaxR(a: real, b: real): real { if a < b then b else a }

  function AbsR(r: real): real { if r < 0.0 then -r else r }

  // Multiplication, named so that proofs can hide it.
  function Mul(a: real, b: real): real {
    a * b
  }

  function Dot(u: Vec3, v: Vec3): real {
    Mul(u.x, v.x) + Mul(u.y, v.y) + Mul(u.z, v.z)
  }

  function Cross(u: Vec3, v: Vec3): Vec3 {
    Vec3(Mul(u.y, v.z) - Mul(u.z, v.y), Mul(u.z, v.x) - Mul(u.x, v.z), Mul(u.x, v.y) - Mul(u.y, v.x))
  }
}
