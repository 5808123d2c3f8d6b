/** Ray-sphere intersection (src/sph.rs).

    With `oc = origin - center`, the point `origin + t * direction` lies on
    the sphere exactly when `a t^2 + 2 b t + c == 0`, where
    `a = dot(direction, direction)`, `b = dot(oc, direction)` and
    `c = dot(oc, oc) - radius^2`.  The source tests the near root
    `(-b - sqrt(b^2 - a c)) / a` first and the far root second. */
module Sph {
  import opened Arith
  import opened Vec
  import opened Rays
  import opened Hit
  import opened Mat

  datatype Sphere = Sphere(center: Vec3, radius: real, material: Material)

  function A(r: Ray): real {
    Dot(r.direction, r.direction)
  }

  function HalfB(s: Sphere, r: Ray): real {
    Dot(Sub(r.origin, s.center), r.direction)
  }

  function C(s: Sphere, r: Ray): real {
    var oc := Sub(r.origin, s.center);
    Dot(oc, oc) - s.radius * s.radius
  }

  function Discriminant(s: Sphere, r: Ray): real {
    HalfB(s, r) * HalfB(s, r) - A(r) * C(s, r)
  }

  function NearRoot(s: Sphere, r: Ray, sqrt: SqrtFn): real {
    Quot(-HalfB(s, r) - sqrt(Discriminant(s, r)), A(r))
  }

  function FarRoot(s: Sphere, r: Ray, sqrt: SqrtFn): real {
    Quot(-HalfB(s, r) + sqrt(Discriminant(s, r)), A(r))
  }

  /** The record for a hit at parameter `t`: the point on the ray, the normal
      `(p - center) / radius`, and the sphere's material. */
  function Record(s: Sphere, r: Ray, t: real): HitRecord<Material> {
    var p := PointAt(r, t);
    HitRecord(t, p, DivScalar(Sub(p, s.center), s.radius), s.material)
  }

  /** `Hittable::hit` for a sphere over the open range (tMin, tMax). */
  function SphereHit(s: Sphere, r: Ray, tMin: real, tMax: real, sqrt: SqrtFn): (h: Option<HitRecord<Material>>)
    ensures h.Some? ==> tMin < h.value.t < tMax
    ensures h.Some? ==> h.value.p == PointAt(r, h.value.t)
    ensures h.Some? ==> h.value.normal == DivScalar(Sub(h.value.p, s.center), s.radius)
    ensures h.Some? ==> h.value.material == s.material
    ensures h.Some? ==> h.value.t == NearRoot(s, r, sqrt) || h.value.t == FarRoot(s, r, sqrt)
    ensures Discriminant(s, r) <= 0.0 ==> h.None?
  {
    if Discriminant(s, r) > 0.0 then
      var temp := NearRoot(s, r, sqrt);
      if tMin < temp && temp < tMax then
        Some(Record(s, r, temp))
      else
        var temp' := FarRoot(s, r, sqrt);
        if tMin < temp' && temp' < tMax then Some(Record(s, r, temp')) else None
    else
      None
  }

  /** The point at parameter `t` lies on the sphere's surface. */
  ghost predicate OnSurface(s: Sphere, r: Ray, t: real) {
    SquaredLength(Sub(PointAt(r, t), s.center)) == s.radius * s.radius
  }

  /** The offset of a ray point from the center is `oc + t * direction`. */
  lemma PointOffset(s: Sphere, r: Ray, t: real)
    ensures var oc, d := Sub(r.origin, s.center), r.direction;
            Sub(PointAt(r, t), s.center) == Vec3(oc.x + t * d.x, oc.y + t * d.y, oc.z + t * d.z)
  {
  }

  /** The distance condition is the quadratic in `t`. */
  lemma SurfaceQuadratic(s: Sphere, r: Ray, t: real)
    ensures SquaredLength(Sub(PointAt(r, t), s.center)) - s.radius * s.radius
              == A(r) * t * t + 2.0 * HalfB(s, r) * t + C(s, r)
  {
    var oc := Sub(r.origin, s.center);
    var d := r.direction;
    var w := Sub(PointAt(r, t), s.center);
    PointOffset(s, r, t);
    QuadraticAlgebra(oc.x, oc.y, oc.z, d.x, d.y, d.z, t, w.x, w.y, w.z,
                     SquaredLength(w), A(r), HalfB(s, r), Dot(oc, oc), s.radius * s.radius);
  }

  lemma QuadraticAlgebra(ox: real, oy: real, oz: real, dx: real, dy: real, dz: real, t: real,
                         wx: real, wy: real, wz: real, ww: real, a: real, b: real, cc: real, rr: real)
    requires wx == ox + t * dx && wy == oy + t * dy && wz == oz + t * dz
    requires ww == wx * wx + wy * wy + wz * wz
    requires a == dx * dx + dy * dy + dz * dz
    requires b == ox * dx + oy * dy + oz * dz
    requires cc == ox * ox + oy * oy + oz * oz
    ensures ww - rr == a * t * t + 2.0 * b * t + (cc - rr)
  {
    calc {
      ww;
      (ox + t * dx) * (ox + t * dx) + (oy + t * dy) * (oy + t * dy) + (oz + t * dz) * (oz + t * dz);
      (dx * dx + dy * dy + dz * dz) * t * t + 2.0 * (ox * dx + oy * dy + oz * dz) * t
        + (ox * ox + oy * oy + oz * oz);
      a * t * t + 2.0 * b * t + cc;
    }
  }

  /** By the Cauchy-Schwarz inequality the discriminant is at most
      `a * radius^2`. */
  lemma DiscriminantBound(s: Sphere, r: Ray)
    ensures Discriminant(s, r) <= A(r) * (s.radius * s.radius)
  {
    var oc := Sub(r.origin, s.center);
    Lagrange(oc, r.direction);
    DiscriminantAlgebra(A(r), HalfB(s, r), Dot(oc, oc), s.radius * s.radius, Discriminant(s, r),
                        SquaredLength(Cross(oc, r.direction)));
  }

  lemma DiscriminantAlgebra(a: real, b: real, cc: real, rr: real, discr: real, lag: real)
    requires discr == b * b - a * (cc - rr)
    requires lag == cc * a - b * b && lag >= 0.0
    ensures discr <= a * rr
  {
    assert discr == a * rr - lag;
  }

  /** A positive discriminant needs a non-zero direction and a non-zero
      radius. */
  lemma DiscriminantPositive(s: Sphere, r: Ray)
    requires Discriminant(s, r) > 0.0
    ensures A(r) > 0.0 && s.radius != 0.0
  {
    DiscriminantBound(s, r);
    var rr := s.radius * s.radius;
    SquareNonNegative(s.radius, rr);
    ProductPositive(A(r), rr, A(r) * rr);
    SquarePositive(s.radius, rr);
  }

  /** A sphere of radius 0 is never hit. */
  lemma ZeroRadiusNeverHit(s: Sphere, r: Ray, tMin: real, tMax: real, sqrt: SqrtFn)
    requires s.radius == 0.0
    ensures SphereHit(s, r, tMin, tMax, sqrt).None?
  {
    if Discriminant(s, r) > 0.0 {
      DiscriminantPositive(s, r);
    }
  }

  /** With a positive discriminant and an exact square root, the surface
      points of the ray are exactly the near and the far root, in that
      order. */
  lemma RootsOfSphere(s: Sphere, r: Ray, sqrt: SqrtFn)
    requires IsSqrt(sqrt)
    requires Discriminant(s, r) > 0.0
    ensures NearRoot(s, r, sqrt) <= FarRoot(s, r, sqrt)
    ensures forall t :: OnSurface(s, r, t) <==> t == NearRoot(s, r, sqrt) || t == FarRoot(s, r, sqrt)
  {
    DiscriminantPositive(s, r);
    var a, b, c := A(r), HalfB(s, r), C(s, r);
    var sq := sqrt(Discriminant(s, r));
    SqrtAt(sqrt, Discriminant(s, r));
    var t1, t2 := NearRoot(s, r, sqrt), FarRoot(s, r, sqrt);
    var u1, u2 := t1 * a, t2 * a;
    RootOrder(a, sq, t1, t2, u1, u2, b);
    forall t
      ensures OnSurface(s, r, t) <==> t == t1 || t == t2
    {
      SurfaceQuadratic(s, r, t);
      QuadraticRoots(a, b, c, sq, t1, t2, u1, u2, t,
                     SquaredLength(Sub(PointAt(r, t), s.center)) - s.radius * s.radius);
    }
  }

  lemma RootOrder(a: real, sq: real, t1: real, t2: real, u1: real, u2: real, b: real)
    requires a > 0.0 && sq >= 0.0
    requires u1 == t1 * a && u2 == t2 * a
    requires u1 == -b - sq && u2 == -b + sq
    ensures t1 <= t2
  {
    if t1 > t2 {
      MulPositive(t1 - t2, a, u1 - u2);
    }
  }

  /** The roots of `a t^2 + 2 b t + c` for `a > 0`, given `t1 * a` and
      `t2 * a` as `-b - sq` and `-b + sq` with `sq^2 == b^2 - a c`. */
  lemma QuadraticRoots(a: real, b: real, c: real, sq: real, t1: real, t2: real,
                       u1: real, u2: real, t: real, q: real)
    requires a > 0.0 && sq * sq == b * b - a * c
    requires u1 == t1 * a && u2 == t2 * a
    requires u1 == -b - sq && u2 == -b + sq
    requires q == a * t * t + 2.0 * b * t + c
    ensures q == 0.0 <==> t == t1 || t == t2
  {
    var e1, e2 := a * t - u1, a * t - u2;
    var aq := a * q;
    assert aq == e1 * e2 by {
      calc {
        aq;
        a * (a * t * t + 2.0 * b * t + c);
        (a * t + b + sq) * (a * t + b - sq);
        e1 * e2;
      }
    }
    ZeroProduct(a, q, aq);
    ZeroProduct(e1, e2, aq);
    assert e1 == a * (t - t1);
    assert e2 == a * (t - t2);
    ZeroProduct(a, t - t1, e1);
    ZeroProduct(a, t - t2, e2);
  }

  /** A returned hit lies on the surface, and no surface point comes earlier
      in the range: the sphere reports the nearest root in range. */
  lemma SphereHitIsNearestRoot(s: Sphere, r: Ray, tMin: real, tMax: real, sqrt: SqrtFn)
    requires IsSqrt(sqrt)
    requires SphereHit(s, r, tMin, tMax, sqrt).Some?
    ensures OnSurface(s, r, SphereHit(s, r, tMin, tMax, sqrt).value.t)
    ensures forall t :: tMin < t < SphereHit(s, r, tMin, tMax, sqrt).value.t ==> !OnSurface(s, r, t)
  {
    RootsOfSphere(s, r, sqrt);
  }

  /** A miss with a non-zero discriminant means the ray has no surface
      point in the range.  (A discriminant of exactly 0, a grazing ray, is
      reported as a miss even when its single root is in range.) */
  lemma SphereMissHasNoRoot(s: Sphere, r: Ray, tMin: real, tMax: real, sqrt: SqrtFn)
    requires IsSqrt(sqrt)
    requires SphereHit(s, r, tMin, tMax, sqrt).None?
    requires Discriminant(s, r) != 0.0
    ensures forall t :: tMin < t < tMax ==> !OnSurface(s, r, t)
  {
    if Discriminant(s, r) > 0.0 {
      RootsOfSphere(s, r, sqrt);
    } else {
      forall t
        ensures !OnSurface(s, r, t)
      {
        SurfaceQuadratic(s, r, t);
        NoRealRoot(A(r), HalfB(s, r), C(s, r), t,
                   SquaredLength(Sub(PointAt(r, t), s.center)) - s.radius * s.radius);
      }
    }
  }

  /** A quadratic with a negative discriminant has no real root. */
  lemma NoRealRoot(a: real, b: real, c: real, t: real, q: real)
    requires b * b - a * c < 0.0
    requires q == a * t * t + 2.0 * b * t + c
    ensures q != 0.0
  {
    var e := a * t + b;
    var ee := e * e;
    var aq := a * q;
    SquareNonNegative(e, ee);
    assert aq == ee - (b * b - a * c);
    ZeroProduct(a, q, aq);
  }

  /** Narrowing the far end of the range to `bound` keeps the hit if it comes
      before `bound` and drops it otherwise; this is what lets a list of
      objects pass its closest hit so far as the new far end. */
  lemma SphereHitNarrowed(s: Sphere, r: Ray, tMin: real, tMax: real, bound: real, sqrt: SqrtFn)
    requires IsSqrt(sqrt)
    requires bound <= tMax
    ensures var h := SphereHit(s, r, tMin, tMax, sqrt);
            SphereHit(s, r, tMin, bound, sqrt) == if h.Some? && h.value.t < bound then h else None
  {
    if Discriminant(s, r) > 0.0 {
      RootsOfSphere(s, r, sqrt);
    }
  }

  /** The normal of a hit has unit length: the hit point is at distance
      `|radius|` from the center and the normal divides by `radius`. */
  lemma SphereNormalIsUnit(s: Sphere, r: Ray, tMin: real, tMax: real, sqrt: SqrtFn)
    requires IsSqrt(sqrt)
    requires SphereHit(s, r, tMin, tMax, sqrt).Some?
    ensures SquaredLength(SphereHit(s, r, tMin, tMax, sqrt).value.normal) == 1.0
  {
    var h := SphereHit(s, r, tMin, tMax, sqrt).value;
    SphereHitIsNearestRoot(s, r, tMin, tMax, sqrt);
    DiscriminantPositive(s, r);
    var w := Sub(h.p, s.center);
    var k := Quot(1.0, s.radius);
    assert h.normal == Vec3(w.x * k, w.y * k, w.z * k);
    ScaledSquaredLength(w.x, w.y, w.z, k, s.radius, SquaredLength(w), SquaredLength(h.normal));
  }

  /** A ray from the origin straight down the negative z axis meets the
      sphere of radius 0.5 centred at (0, 0, -1) at t = 0.5, the point
      (0, 0, -0.5), with normal (0, 0, 1). */
  lemma FrontHit(m: Material, tMin: real, tMax: real, sqrt: SqrtFn)
    requires IsSqrt(sqrt)
    requires tMin < 0.5 < tMax
    ensures SphereHit(Sphere(Vec3(0.0, 0.0, -1.0), 0.5, m), Ray(Zero, Vec3(0.0, 0.0, -1.0)), tMin, tMax, sqrt)
              == Some(HitRecord(0.5, Vec3(0.0, 0.0, -0.5), Vec3(0.0, 0.0, 1.0), m))
  {
    FrontHitAtHalf(m, tMin, tMax, sqrt);
    FrontRecord(m);
  }

  lemma FrontHitAtHalf(m: Material, tMin: real, tMax: real, sqrt: SqrtFn)
    requires IsSqrt(sqrt)
    requires tMin < 0.5 < tMax
    ensures var s, r := Sphere(Vec3(0.0, 0.0, -1.0), 0.5, m), Ray(Zero, Vec3(0.0, 0.0, -1.0));
            SphereHit(s, r, tMin, tMax, sqrt) == Some(Record(s, r, 0.5))
  {
    FrontCoefficients(m);
    SqrtQuarter(sqrt);
    FrontNearRoot(m, sqrt);
  }

  lemma FrontNearRoot(m: Material, sqrt: SqrtFn)
    requires sqrt(0.25) == 0.5
    ensures NearRoot(Sphere(Vec3(0.0, 0.0, -1.0), 0.5, m), Ray(Zero, Vec3(0.0, 0.0, -1.0)), sqrt) == 0.5
  {
    FrontCoefficients(m);
  }

  /** An exact square root of 1/4 is 1/2. */
  lemma SqrtQuarter(sqrt: SqrtFn)
    requires IsSqrt(sqrt)
    ensures sqrt(0.25) == 0.5
  {
    SqrtAt(sqrt, 0.25);
    RootUnique(sqrt(0.25), 0.5, 0.25);
  }

  lemma FrontCoefficients(m: Material)
    ensures var s, r := Sphere(Vec3(0.0, 0.0, -1.0), 0.5, m), Ray(Zero, Vec3(0.0, 0.0, -1.0));
            A(r) == 1.0 && HalfB(s, r) == -1.0 && Discriminant(s, r) == 0.25
  {
  }

  lemma FrontRecord(m: Material)
    ensures Record(Sphere(Vec3(0.0, 0.0, -1.0), 0.5, m), Ray(Zero, Vec3(0.0, 0.0, -1.0)), 0.5)
              == HitRecord(0.5, Vec3(0.0, 0.0, -0.5), Vec3(0.0, 0.0, 1.0), m)
  {
    var p := PointAt(Ray(Zero, Vec3(0.0, 0.0, -1.0)), 0.5);
    assert p == Vec3(0.0, 0.0, -0.5);
    assert Sub(p, Vec3(0.0, 0.0, -1.0)) == Vec3(0.0, 0.0, 0.5);
    assert Quot(1.0, 0.5) == 2.0;
    assert DivScalar(Vec3(0.0, 0.0, 0.5), 0.5) == Vec3(0.0, 0.0, 1.0);
  }
}
