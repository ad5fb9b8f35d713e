/**
 Vectors and matrices of three. Source:
 libweston-vendored/src/include/libweston/linalg-3.h.
 */
module Vectors {

  datatype Vec3 = Vec3(x: real, y: real, z: real)

  /** By rows; the source stores the columns one after another. */
  datatype Mat3 = Mat3(r0: Vec3, r1: Vec3, r2: Vec3)

  const ONES: Vec3 := Vec3(1.0, 1.0, 1.0)

  const IDENTITY: Mat3 := Mat3(Vec3(1.0, 0.0, 0.0), Vec3(0.0, 1.0, 0.0), Vec3(0.0, 0.0, 1.0))

  function Diag(d: Vec3): Mat3 {
    Mat3(Vec3(d.x, 0.0, 0.0), Vec3(0.0, d.y, 0.0), Vec3(0.0, 0.0, d.z))
  }

  function Dot(a: Vec3, b: Vec3): real {
    a.x * b.x + a.y * b.y + a.z * b.z
  }

  function Add(a: Vec3, b: Vec3): Vec3 {
    Vec3(a.x + b.x, a.y + b.y, a.z + b.z)
  }

  function Col(m: Mat3, c: nat): Vec3
    requires c < 3
  {
    if c == 0 then Vec3(m.r0.x, m.r1.x, m.r2.x)
    else if c == 1 then Vec3(m.r0.y, m.r1.y, m.r2.y)
    else Vec3(m.r0.z, m.r1.z, m.r2.z)
  }

  function FromCols(a: Vec3, b: Vec3, c: Vec3): Mat3 {
    Mat3(Vec3(a.x, b.x, c.x), Vec3(a.y, b.y, c.y), Vec3(a.z, b.z, c.z))
  }

  function MulVec(m: Mat3, v: Vec3): Vec3 {
    Vec3(Dot(m.r0, v), Dot(m.r1, v), Dot(m.r2, v))
  }

  function Mul(m: Mat3, n: Mat3): Mat3 {
    FromCols(MulVec(m, Col(n, 0)), MulVec(m, Col(n, 1)), MulVec(m, Col(n, 2)))
  }

  /** The determinant of the matrix with these rows, or these columns. */
  function Det(a: Vec3, b: Vec3, c: Vec3): real {
    a.x * (b.y * c.z - c.y * b.z) - b.x * (a.y * c.z - c.y * a.z) + c.x * (a.y * b.z - b.y * a.z)
  }

  function Clamp(x: real, lo: real, hi: real): real {
    if x >= lo then (if x <= hi then x else hi) else lo
  }

  function ClampVec(v: Vec3, lo: real, hi: real): Vec3 {
    Vec3(Clamp(v.x, lo, hi), Clamp(v.y, lo, hi), Clamp(v.z, lo, hi))
  }
}
