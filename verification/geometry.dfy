/** Real-valued 3D vectors and the integer conversions the C++ code applies to
    glm float vectors. Floating-point rounding is not modelled: a float is a real. */
module Geometry {

  datatype Vec3 = Vec3(x: real, y: real, z: real) {

    function Add(o: Vec3): Vec3 {
      Vec3(x + o.x, y + o.y, z + o.z)
    }

    function Sub(o: Vec3): Vec3 {
      Vec3(x - o.x, y - o.y, z - o.z)
    }

    function Scale(k: real): Vec3 {
      Vec3(x * k, y * k, z * k)
    }

    /** Component `axis` (0 = x, 1 = y, 2 = z), as glm's `v[axis]`. */
    function Get(axis: int): real
      requires 0 <= axis < 3
    {
      if axis == 0 then x else if axis == 1 then y else z
    }

    /** Scaling scales every component. */
    lemma ScaleGet(k: real, axis: int)
      requires 0 <= axis < 3
      ensures Scale(k).Get(axis) == Get(axis) * k
    {
    }

    /** This vector with component `axis` replaced by `v`. */
    function With(axis: int, v: real): (r: Vec3)
      requires 0 <= axis < 3
      ensures r.Get(axis) == v
      ensures forall a :: 0 <= a < 3 && a != axis ==> r.Get(a) == Get(a)
    {
      if axis == 0 then Vec3(v, y, z) else if axis == 1 then Vec3(x, v, z) else Vec3(x, y, v)
    }
  }

  /** C++ `int(f)`: conversion of a float to an integer, truncating toward zero. */
  function Trunc(r: real): (t: int)
    ensures 0.0 <= r ==> t as real <= r < t as real + 1.0
    ensures r < 0.0 ==> t as real - 1.0 < r <= t as real
  {
    if r >= 0.0 then r.Floor else -((-r).Floor)
  }

  /** glm::fract: the fractional part `r - floor(r)`. */
  function Fract(r: real): (f: real)
    ensures 0.0 <= f < 1.0
    ensures (r - f).Floor as real == r - f
  {
    r - r.Floor as real
  }

  /** glm::sign of a real, as an integer. */
  function Sign(r: real): (s: int)
    ensures s == 0 <==> r == 0.0
    ensures s > 0 <==> r > 0.0
    ensures -1 <= s <= 1
  {
    if r > 0.0 then 1 else if r < 0.0 then -1 else 0
  }

  function Abs(r: real): (a: real)
    ensures a >= 0.0 && (a == r || a == -r)
  {
    if r < 0.0 then -r else r
  }

  /** Truncation leaves an integral value unchanged. */
  lemma TruncOfInteger(n: int)
    ensures Trunc(n as real) == n
  {
  }
}
