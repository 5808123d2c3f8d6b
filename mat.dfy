/** Materials and how they scatter an incoming ray (src/mat.rs). */
module Mat {
  import opened Arith
  import opened Vec
  import opened Rays
  import opened Rnd
  import opened Hit

  datatype Material =
    | Lambertian(albedo: Vec3)
    | Metal(albedo: Vec3, fuzz: real)

  /** A scattered ray and how much of each colour channel it keeps. */
  datatype Scatter = Scatter(attenuation: Vec3, scattered: Ray)

  /** `reflect(v, n) = v - 2 * dot(v, n) * n`. */
  function Reflect(v: Vec3, n: Vec3): Vec3 {
    Sub(v, ScalarMul(2.0 * Dot(v, n), n))
  }

  /** For a unit normal, reflection flips the component along the normal
      and keeps the length. */
  lemma ReflectAcrossUnitNormal(v: Vec3, n: Vec3)
    requires SquaredLength(n) == 1.0
    ensures Dot(Reflect(v, n), n) == -Dot(v, n)
    ensures SquaredLength(Reflect(v, n)) == SquaredLength(v)
  {
    var d := Dot(v, n);
    var w := Reflect(v, n);
    var ex, ey, ez := d * n.x, d * n.y, d * n.z;
    assert w == Vec3(v.x - 2.0 * ex, v.y - 2.0 * ey, v.z - 2.0 * ez);
    ReflectAlgebra(v.x, v.y, v.z, n.x, n.y, n.z, d, ex, ey, ez, SquaredLength(n), Dot(w, n), SquaredLength(w), SquaredLength(v));
  }

  /** For a unit normal, reflecting twice gives back the original vector. */
  lemma ReflectInvolution(v: Vec3, n: Vec3)
    requires SquaredLength(n) == 1.0
    ensures Reflect(Reflect(v, n), n) == v
  {
    var d := Dot(v, n);
    var w := Reflect(v, n);
    ReflectAcrossUnitNormal(v, n);
    assert w == Sub(v, ScalarMul(2.0 * d, n));
    ScalarMulNeg(2.0 * d, n);
    assert Reflect(w, n) == Sub(w, ScalarMul(-(2.0 * d), n));
  }

  /** The algebra behind `ReflectAcrossUnitNormal`, on components. */
  lemma ReflectAlgebra(vx: real, vy: real, vz: real, nx: real, ny: real, nz: real,
                       d: real, ex: real, ey: real, ez: real, nn: real, wn: real, ww: real, vv: real)
    requires d == vx * nx + vy * ny + vz * nz
    requires ex == d * nx && ey == d * ny && ez == d * nz
    requires nn == nx * nx + ny * ny + nz * nz && nn == 1.0
    requires wn == (vx - 2.0 * ex) * nx + (vy - 2.0 * ey) * ny + (vz - 2.0 * ez) * nz
    requires ww == (vx - 2.0 * ex) * (vx - 2.0 * ex) + (vy - 2.0 * ey) * (vy - 2.0 * ey)
                 + (vz - 2.0 * ez) * (vz - 2.0 * ez)
    requires vv == vx * vx + vy * vy + vz * vz
    ensures wn == -d
    ensures ww == vv
  {
    calc {
      wn;
      d - 2.0 * d * (nx * nx + ny * ny + nz * nz);
      d - 2.0 * d * nn;
      -d;
    }
    calc {
      ww;
      vv - 4.0 * d * (vx * nx + vy * ny + vz * nz) + 4.0 * d * d * (nx * nx + ny * ny + nz * nz);
      vv - 4.0 * d * d + 4.0 * d * d * nn;
      vv;
    }
  }

  /** `Material::scatter` given the samples `s`: every variant draws exactly
      one point of the unit ball.  Lambertian scatters towards
      `rec.p + rec.normal + sample`; Metal reflects the unit incoming
      direction, perturbs it by `fuzz * sample`, and is absorbed unless the
      result leaves the surface. */
  function MaterialScatter(m: Material, rIn: Ray, rec: HitRecord<Material>,
                           s: seq<Unit01>, sqrt: SqrtFn): Sampled<Option<Scatter>>
  {
    match m
    case Lambertian(albedo) =>
      (match UnitSphereDraw(s)
       case Exhausted => Exhausted
       case Drawn(q, rest) =>
         var target := Add(Add(rec.p, rec.normal), q);
         var scattered := Ray(rec.p, Sub(target, rec.p));
         Drawn(Some(Scatter(albedo, scattered)), rest))
    case Metal(albedo, fuzz) =>
      var reflected := Reflect(UnitVector(rIn.direction, sqrt), rec.normal);
      match UnitSphereDraw(s)
      case Exhausted => Exhausted
      case Drawn(q, rest) =>
        var scattered := Ray(rec.p, Add(reflected, ScalarMul(fuzz, q)));
        if Dot(scattered.direction, rec.normal) > 0.0 then
          Drawn(Some(Scatter(albedo, scattered)), rest)
        else
          Drawn(None, rest)
  }

  /** Each scatter consumes exactly the samples of one unit-ball draw, for
      both variants and whatever the fuzz. */
  lemma ScatterDrawsOnce(m: Material, rIn: Ray, rec: HitRecord<Material>, s: seq<Unit01>, sqrt: SqrtFn)
    ensures MaterialScatter(m, rIn, rec, s, sqrt).Drawn? <==> UnitSphereDraw(s).Drawn?
    ensures MaterialScatter(m, rIn, rec, s, sqrt).Drawn? ==>
              MaterialScatter(m, rIn, rec, s, sqrt).rest == UnitSphereDraw(s).rest
  {
  }

  /** Lambertian always scatters, from the hit point, in the direction
      `normal + sample`, keeping its albedo. */
  lemma LambertianScatter(albedo: Vec3, rIn: Ray, rec: HitRecord<Material>, s: seq<Unit01>, sqrt: SqrtFn)
    requires UnitSphereDraw(s).Drawn?
    ensures MaterialScatter(Lambertian(albedo), rIn, rec, s, sqrt).Drawn?
    ensures MaterialScatter(Lambertian(albedo), rIn, rec, s, sqrt).value ==
              Some(Scatter(albedo, Ray(rec.p, Add(rec.normal, UnitSphereDraw(s).value))))
  {
  }

  /** Metal scatters exactly when the perturbed reflection leaves the
      surface (`dot(direction, normal) > 0`), from the hit point and keeping
      its albedo; otherwise the ray is absorbed. */
  lemma MetalScatter(albedo: Vec3, fuzz: real, rIn: Ray, rec: HitRecord<Material>, s: seq<Unit01>, sqrt: SqrtFn)
    requires UnitSphereDraw(s).Drawn?
    ensures var dir := Add(Reflect(UnitVector(rIn.direction, sqrt), rec.normal),
                           ScalarMul(fuzz, UnitSphereDraw(s).value));
            var res := MaterialScatter(Metal(albedo, fuzz), rIn, rec, s, sqrt);
            res.Drawn? &&
            (res.value.Some? <==> Dot(dir, rec.normal) > 0.0) &&
            (res.value.Some? ==> res.value.value == Scatter(albedo, Ray(rec.p, dir)))
  {
  }

  /** A mirror (fuzz 0) with a unit normal always reflects a ray that comes
      in against the normal, in the mirrored direction. */
  lemma MirrorReflects(albedo: Vec3, rIn: Ray, rec: HitRecord<Material>, s: seq<Unit01>, sqrt: SqrtFn)
    requires IsSqrt(sqrt)
    requires SquaredLength(rec.normal) == 1.0
    requires Dot(rIn.direction, rec.normal) < 0.0
    requires UnitSphereDraw(s).Drawn?
    ensures MaterialScatter(Metal(albedo, 0.0), rIn, rec, s, sqrt).Drawn?
    ensures MaterialScatter(Metal(albedo, 0.0), rIn, rec, s, sqrt).value ==
              Some(Scatter(albedo, Ray(rec.p, Reflect(UnitVector(rIn.direction, sqrt), rec.normal))))
  {
    var d := rIn.direction;
    var n := rec.normal;
    var u := UnitVector(d, sqrt);
    var q := UnitSphereDraw(s).value;
    assert d != Zero;
    LengthIsRoot(d, sqrt);
    var k := Quot(1.0, Length(d, sqrt));
    assert k > 0.0 by {
      Arith.MulPositive(k, Length(d, sqrt), 1.0);
    }
    assert u == Vec3(d.x * k, d.y * k, d.z * k);
    ScaledDot(d.x, d.y, d.z, n.x, n.y, n.z, k, Dot(d, n), Dot(u, n));
    ReflectAcrossUnitNormal(u, n);
    assert Add(Reflect(u, n), ScalarMul(0.0, q)) == Reflect(u, n);
  }

  /** Scaling one argument of a dot product by a positive factor keeps the
      product's sign. */
  lemma ScaledDot(x: real, y: real, z: real, nx: real, ny: real, nz: real, k: real, d: real, e: real)
    requires d == x * nx + y * ny + z * nz
    requires e == (x * k) * nx + (y * k) * ny + (z * k) * nz
    requires k > 0.0 && d < 0.0
    ensures e < 0.0
  {
    assert e == k * d;
    Arith.MulPositive(k, -d, -e);
  }

  /** A scattered ray keeps the material's albedo as its attenuation. */
  lemma ScatterKeepsAlbedo(m: Material, rIn: Ray, rec: HitRecord<Material>, s: seq<Unit01>, sqrt: SqrtFn)
    ensures var res := MaterialScatter(m, rIn, rec, s, sqrt);
            res.Drawn? && res.value.Some? ==> res.value.value.attenuation == m.albedo
  {
  }
}
