/** Three-component vectors (src/vec.rs).

    The source uses 32-bit floats; the model uses `real`, so the identities
    below hold exactly here and only approximately in the source.  The square
    root comes from the floating-point library and is passed in as a function
    `sqrt`; `IsSqrt` says what it must satisfy for the properties that need it. */
module Vec {
  import opened Arith

  datatype Vec3 = Vec3(x: real, y: real, z: real)

  const Zero: Vec3 := Vec3(0.0, 0.0, 0.0)

  /** The square-root routine the operations are given. */
  type SqrtFn = real -> real

  /** `sqrt` is an exact square root on the non-negative reals. */
  ghost predicate IsSqrt(sqrt: SqrtFn) {
    forall x: real :: 0.0 <= x ==> 0.0 <= sqrt(x) && sqrt(x) * sqrt(x) == x
  }

  /** Real division made total.  IEEE arithmetic would give an infinity or NaN
      for a zero divisor; the model returns 0 there.  A property whose truth
      depends on a division is stated for a non-zero divisor, or holds only
      through this convention where it covers the zero divisor. */
  function Quot(a: real, b: real): (q: real)
    ensures b != 0.0 ==> q * b == a
    ensures b == 0.0 ==> q == 0.0
  {
    if b == 0.0 then 0.0 else a / b
  }

  function Neg(v: Vec3): Vec3 {
    Vec3(-v.x, -v.y, -v.z)
  }

  function Add(a: Vec3, b: Vec3): Vec3 {
    Vec3(a.x + b.x, a.y + b.y, a.z + b.z)
  }

  function Sub(a: Vec3, b: Vec3): Vec3 {
    Vec3(a.x - b.x, a.y - b.y, a.z - b.z)
  }

  /** Component-wise product (`Mul for Vec3`); it attenuates colours. */
  function Mul(a: Vec3, b: Vec3): Vec3 {
    Vec3(a.x * b.x, a.y * b.y, a.z * b.z)
  }

  /** Component-wise quotient (`Div for Vec3`): it undoes `Mul` by a vector
      with no zero component. */
  function Div(a: Vec3, b: Vec3): (r: Vec3)
    ensures b.x != 0.0 && b.y != 0.0 && b.z != 0.0 ==> Mul(r, b) == a
  {
    Vec3(Quot(a.x, b.x), Quot(a.y, b.y), Quot(a.z, b.z))
  }

  /** `v * f` (`Mul<f32> for Vec3`). */
  function MulScalar(v: Vec3, f: real): Vec3 {
    Vec3(v.x * f, v.y * f, v.z * f)
  }

  /** `f * v` (`Mul<Vec3> for f32`), which the source computes as `v * f`;
      the result is `f` times each component, multiplied from the left. */
  function ScalarMul(f: real, v: Vec3): (r: Vec3)
    ensures r == Vec3(f * v.x, f * v.y, f * v.z)
  {
    MulScalar(v, f)
  }

  /** `v / f` (`Div<f32> for Vec3`): multiplication by the reciprocal of `f`.
      For non-zero `f` it divides each component by `f` and undoes
      `MulScalar(_, f)`. */
  function DivScalar(v: Vec3, f: real): (r: Vec3)
    ensures f != 0.0 ==> r == Vec3(v.x / f, v.y / f, v.z / f)
    ensures f != 0.0 ==> MulScalar(r, f) == v
  {
    var k := Quot(1.0, f);
    Vec3(v.x * k, v.y * k, v.z * k)
  }

  function Dot(a: Vec3, b: Vec3): real {
    a.x * b.x + a.y * b.y + a.z * b.z
  }

  /** `squared_length`: the dot product of a vector with itself, never negative. */
  function SquaredLength(v: Vec3): (r: real)
    ensures r >= 0.0
    ensures r == Dot(v, v)
  {
    var sx, sy, sz := v.x * v.x, v.y * v.y, v.z * v.z;
    SquareNonNegative(v.x, sx);
    SquareNonNegative(v.y, sy);
    SquareNonNegative(v.z, sz);
    sx + sy + sz
  }

  /** Only the zero vector has squared length 0. */
  lemma SquaredLengthPositive(v: Vec3)
    ensures SquaredLength(v) > 0.0 <==> v != Zero
  {
    var sx, sy, sz := v.x * v.x, v.y * v.y, v.z * v.z;
    SquareNonNegative(v.x, sx);
    SquareNonNegative(v.y, sy);
    SquareNonNegative(v.z, sz);
    if v.x != 0.0 {
      SquarePositive(v.x, sx);
    } else if v.y != 0.0 {
      SquarePositive(v.y, sy);
    } else if v.z != 0.0 {
      SquarePositive(v.z, sz);
    }
    assert SquaredLength(v) == sx + sy + sz;
  }

  /** What an exact square root gives for one argument. */
  lemma SqrtAt(sqrt: SqrtFn, x: real)
    requires IsSqrt(sqrt) && 0.0 <= x
    ensures 0.0 <= sqrt(x) && sqrt(x) * sqrt(x) == x
  {
  }

  function Length(v: Vec3, sqrt: SqrtFn): real {
    sqrt(SquaredLength(v))
  }

  /** With an exact square root, `length` is the non-negative root of the
      squared length, and it is positive exactly for the non-zero vectors. */
  lemma LengthIsRoot(v: Vec3, sqrt: SqrtFn)
    requires IsSqrt(sqrt)
    ensures Length(v, sqrt) >= 0.0
    ensures Length(v, sqrt) * Length(v, sqrt) == SquaredLength(v)
    ensures Length(v, sqrt) > 0.0 <==> v != Zero
  {
    var s := SquaredLength(v);
    var l := Length(v, sqrt);
    SqrtAt(sqrt, s);
    SquaredLengthPositive(v);
    if v != Zero {
      RootPositive(l, s);
    } else {
      RootZero(l, s);
    }
  }

  /** `unit_vector`: `v` scaled by the reciprocal of its length.  For the zero
      vector the source divides by zero; the model then yields the zero vector. */
  function UnitVector(v: Vec3, sqrt: SqrtFn): Vec3 {
    var k := Quot(1.0, Length(v, sqrt));
    Vec3(v.x * k, v.y * k, v.z * k)
  }

  /** With an exact square root, `unit_vector` of a non-zero vector is `v`
      divided by its length and has length 1. */
  lemma UnitVectorIsUnit(v: Vec3, sqrt: SqrtFn)
    requires IsSqrt(sqrt)
    requires v != Zero
    ensures UnitVector(v, sqrt) == DivScalar(v, Length(v, sqrt))
    ensures SquaredLength(UnitVector(v, sqrt)) == 1.0
    ensures Length(UnitVector(v, sqrt), sqrt) == 1.0
  {
    var l := Length(v, sqrt);
    LengthIsRoot(v, sqrt);
    var k := Quot(1.0, l);
    var u := UnitVector(v, sqrt);
    assert u == Vec3(v.x * k, v.y * k, v.z * k);
    ScaledSquaredLength(v.x, v.y, v.z, k, l, SquaredLength(v), SquaredLength(u));
    SqrtAt(sqrt, 1.0);
    RootOne(sqrt(1.0), sqrt(1.0) * sqrt(1.0));
  }

  /** The algebra behind `UnitVectorIsUnit`: scaling by `k` multiplies the
      squared length by `k * k`, which is `1 / (l * l)`. */
  lemma ScaledSquaredLength(x: real, y: real, z: real, k: real, l: real, s: real, t: real)
    requires s == x * x + y * y + z * z
    requires l * l == s && k * l == 1.0
    requires t == (x * k) * (x * k) + (y * k) * (y * k) + (z * k) * (z * k)
    ensures t == 1.0
  {
    calc {
      t;
      (k * k) * (x * x + y * y + z * z);
      (k * k) * (l * l);
      (k * l) * (k * l);
      1.0;
    }
  }

  /** `cross(a, b)` is orthogonal to both arguments. */
  function Cross(a: Vec3, b: Vec3): (r: Vec3)
    ensures Dot(a, r) == 0.0 && Dot(b, r) == 0.0
  {
    Vec3(a.y * b.z - a.z * b.y,
         -(a.x * b.z - a.z * b.x),
         a.x * b.y - a.y * b.x)
  }

  /** Lagrange's identity: `|a|^2 |b|^2 - (a . b)^2 == |a x b|^2`, so the
      left side is never negative (the Cauchy-Schwarz inequality). */
  lemma Lagrange(a: Vec3, b: Vec3)
    ensures SquaredLength(a) * SquaredLength(b) - Dot(a, b) * Dot(a, b) == SquaredLength(Cross(a, b))
  {
    LagrangeAlgebra(a.x, a.y, a.z, b.x, b.y, b.z,
                    SquaredLength(a), SquaredLength(b), Dot(a, b), SquaredLength(Cross(a, b)));
  }

  lemma LagrangeAlgebra(ux: real, uy: real, uz: real, vx: real, vy: real, vz: real,
                        uu: real, vv: real, uv: real, cc: real)
    requires uu == ux * ux + uy * uy + uz * uz
    requires vv == vx * vx + vy * vy + vz * vz
    requires uv == ux * vx + uy * vy + uz * vz
    requires cc == (uy * vz - uz * vy) * (uy * vz - uz * vy)
                 + (-(ux * vz - uz * vx)) * (-(ux * vz - uz * vx))
                 + (ux * vy - uy * vx) * (ux * vy - uy * vx)
    ensures uu * vv - uv * uv == cc
  {
    calc {
      uu * vv - uv * uv;
      (ux * ux + uy * uy + uz * uz) * (vx * vx + vy * vy + vz * vz)
        - (ux * vx + uy * vy + uz * vz) * (ux * vx + uy * vy + uz * vz);
      cc;
    }
  }

  lemma CrossAnticommutative(a: Vec3, b: Vec3)
    ensures Cross(a, b) == Neg(Cross(b, a))
  {
  }

  /** `f * v == v * f`: the two scalar products agree. */
  lemma ScalarMulCommutes(f: real, v: Vec3)
    ensures ScalarMul(f, v) == MulScalar(v, f)
  {
  }

  /** Scaling by `-f` negates the scaled vector. */
  lemma ScalarMulNeg(f: real, v: Vec3)
    ensures ScalarMul(-f, v) == Neg(ScalarMul(f, v))
  {
  }

  /** Subtraction undoes addition, and negation is its own inverse. */
  lemma AddSubInverse(a: Vec3, b: Vec3)
    ensures Sub(Add(a, b), b) == a
    ensures Sub(a, b) == Add(a, Neg(b))
    ensures Neg(Neg(a)) == a
  {
  }
}
