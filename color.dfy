/** The colour seen along a ray (`color`, src/main.rs:28-47). */
module Color {
  import opened Arith
  import opened Vec
  import opened Rays
  import opened Rnd
  import opened Hit
  import opened Mat
  import opened Sph
  import opened HitList

  /** Bounces are followed while the depth is below this. */
  const MaxDepth: nat := 50

  /** The start of the hit range; it skips hits at the surface a ray leaves. */
  const TMin: real := 0.001

  /** `f32::MAX`, the end of the hit range. */
  const F32Max: real := 340282346638528859811704183484516925440.0

  /** Every component lies in [0, 1]. */
  predicate InUnitCube(v: Vec3) {
    0.0 <= v.x <= 1.0 && 0.0 <= v.y <= 1.0 && 0.0 <= v.z <= 1.0
  }

  /** The sky: a vertical blend from white to light blue by the unit
      direction's height. */
  function Background(dir: Vec3, sqrt: SqrtFn): Vec3 {
    var u := UnitVector(dir, sqrt);
    var t := 0.5 * (u.y + 1.0);
    Add(ScalarMul(1.0 - t, Vec3(1.0, 1.0, 1.0)), ScalarMul(t, Vec3(0.5, 0.7, 1.0)))
  }

  /** The blend factor of the sky lies in [0, 1], so the sky runs from white
      (straight down) to (0.5, 0.7, 1.0) (straight up). */
  lemma BackgroundBlend(dir: Vec3, sqrt: SqrtFn)
    requires IsSqrt(sqrt)
    ensures var t := 0.5 * (UnitVector(dir, sqrt).y + 1.0);
            0.0 <= t <= 1.0 && Background(dir, sqrt) == Vec3(1.0 - 0.5 * t, 1.0 - 0.3 * t, 1.0)
  {
    var u := UnitVector(dir, sqrt);
    UnitHeight(dir, sqrt);
    var t := 0.5 * (u.y + 1.0);
    assert Background(dir, sqrt) == Vec3((1.0 - t) * 1.0 + t * 0.5, (1.0 - t) * 1.0 + t * 0.7, (1.0 - t) * 1.0 + t * 1.0);
  }

  /** The height of `unit_vector(dir)` lies in [-1, 1]; for the zero vector
      the model's unit vector is zero. */
  lemma UnitHeight(dir: Vec3, sqrt: SqrtFn)
    requires IsSqrt(sqrt)
    ensures -1.0 <= UnitVector(dir, sqrt).y <= 1.0
  {
    if dir == Zero {
      SqrtAt(sqrt, 0.0);
      RootZero(sqrt(0.0), 0.0);
      UnitVectorOfZero(sqrt);
    } else {
      UnitVectorIsUnit(dir, sqrt);
      HeightOfUnit(UnitVector(dir, sqrt));
    }
  }

  lemma UnitVectorOfZero(sqrt: SqrtFn)
    requires sqrt(0.0) == 0.0
    ensures UnitVector(Zero, sqrt) == Zero
  {
  }

  /** A vector of length 1 has height in [-1, 1]. */
  lemma HeightOfUnit(u: Vec3)
    requires SquaredLength(u) == 1.0
    ensures -1.0 <= u.y <= 1.0
  {
    var sx, sy, sz := u.x * u.x, u.y * u.y, u.z * u.z;
    SquareNonNegative(u.x, sx);
    SquareNonNegative(u.z, sz);
    assert SquaredLength(u) == sx + sy + sz;
    SquareAtMostOne(u.y, sy);
  }

  /** `color(r, world, depth)` on the samples `s`.  A miss shows the sky and
      draws nothing; a hit asks its material to scatter (one unit-ball draw)
      and goes on in `Bounce`. */
  function Color(r: Ray, world: seq<Sphere>, depth: nat, s: seq<Unit01>, sqrt: SqrtFn): Sampled<Vec3>
    decreases MaxDepth - depth, 1
  {
    match ListHit(world, r, TMin, F32Max, sqrt)
    case None => Drawn(Background(r.direction, sqrt), s)
    case Some(rec) => Bounce(MaterialScatter(rec.material, r, rec, s, sqrt), world, depth, sqrt)
  }

  /** The arms of `color` after a scatter: while `depth` is below
      `MaxDepth` a scattered ray is followed and what it sees is attenuated;
      an absorbed ray, or one at the depth limit, is black. */
  function Bounce(sc: Sampled<Option<Scatter>>, world: seq<Sphere>, depth: nat, sqrt: SqrtFn): Sampled<Vec3>
    decreases MaxDepth - depth, 0
  {
    match sc
    case Exhausted => Exhausted
    case Drawn(None, rest) => Drawn(Zero, rest)
    case Drawn(Some(scatter), rest) =>
      if depth < MaxDepth then
        Attenuate(scatter.attenuation, Color(scatter.scattered, world, depth + 1, rest, sqrt))
      else
        Drawn(Zero, rest)
  }

  /** `attenuation * color`, component-wise, passing exhaustion through. */
  function Attenuate(a: Vec3, c: Sampled<Vec3>): Sampled<Vec3> {
    match c
    case Exhausted => Exhausted
    case Drawn(v, rest) => Drawn(Mul(a, v), rest)
  }

  /** A ray that hits nothing shows the sky, which lies between white and
      (0.5, 0.7, 1.0), and consumes no samples. */
  lemma ColorMiss(r: Ray, world: seq<Sphere>, depth: nat, s: seq<Unit01>, sqrt: SqrtFn)
    requires IsSqrt(sqrt)
    requires forall i :: 0 <= i < |world| ==> SphereHit(world[i], r, TMin, F32Max, sqrt).None?
    ensures Color(r, world, depth, s, sqrt).Drawn?
    ensures Color(r, world, depth, s, sqrt).rest == s
    ensures Color(r, world, depth, s, sqrt) == Drawn(Background(r.direction, sqrt), s)
    ensures var c := Color(r, world, depth, s, sqrt).value;
            0.5 <= c.x <= 1.0 && 0.7 <= c.y <= 1.0 && c.z == 1.0
  {
    ListHitNoneIff(world, r, TMin, F32Max, sqrt);
    BackgroundBlend(r.direction, sqrt);
  }

  /** A hit whose material absorbs the ray is black; a hit at the depth
      limit is black; and either way the material has drawn its one
      unit-ball sample first. */
  lemma ColorBlackHit(r: Ray, world: seq<Sphere>, depth: nat, s: seq<Unit01>, sqrt: SqrtFn)
    requires ListHit(world, r, TMin, F32Max, sqrt).Some?
    requires UnitSphereDraw(s).Drawn?
    requires var rec := ListHit(world, r, TMin, F32Max, sqrt).value;
             depth >= MaxDepth || MaterialScatter(rec.material, r, rec, s, sqrt).value.None?
    ensures Color(r, world, depth, s, sqrt) == Drawn(Zero, UnitSphereDraw(s).rest)
  {
    var rec := ListHit(world, r, TMin, F32Max, sqrt).value;
    ScatterDrawsOnce(rec.material, r, rec, s, sqrt);
  }

  /** `t` is what is left of `s` after a prefix has been consumed. */
  predicate IsSuffix(t: seq<Unit01>, s: seq<Unit01>) {
    |t| <= |s| && t == s[|s| - |t|..]
  }

  lemma SuffixTransitive(u: seq<Unit01>, t: seq<Unit01>, s: seq<Unit01>)
    requires IsSuffix(u, t) && IsSuffix(t, s)
    ensures IsSuffix(u, s)
  {
    assert s[|s| - |t|..][|t| - |u|..] == s[|s| - |u|..];
  }

  /** A colour only ever consumes samples from the front of the stream. */
  lemma {:induction false} ColorConsumesPrefix(r: Ray, world: seq<Sphere>, depth: nat, s: seq<Unit01>, sqrt: SqrtFn)
    ensures Color(r, world, depth, s, sqrt).Drawn? ==> IsSuffix(Color(r, world, depth, s, sqrt).rest, s)
    decreases MaxDepth - depth, 1
  {
    var h := ListHit(world, r, TMin, F32Max, sqrt);
    if h.Some? {
      var rec := h.value;
      ScatterDrawsOnce(rec.material, r, rec, s, sqrt);
      BounceConsumesPrefix(MaterialScatter(rec.material, r, rec, s, sqrt), world, depth, s, sqrt);
    }
  }

  lemma {:induction false} BounceConsumesPrefix(sc: Sampled<Option<Scatter>>, world: seq<Sphere>, depth: nat,
                                                s: seq<Unit01>, sqrt: SqrtFn)
    requires sc.Drawn? ==> IsSuffix(sc.rest, s)
    ensures Bounce(sc, world, depth, sqrt).Drawn? ==> IsSuffix(Bounce(sc, world, depth, sqrt).rest, s)
    decreases MaxDepth - depth, 0
  {
    if sc.Drawn? && sc.value.Some? && depth < MaxDepth {
      var scatter := sc.value.value;
      ColorConsumesPrefix(scatter.scattered, world, depth + 1, sc.rest, sqrt);
      var res := Color(scatter.scattered, world, depth + 1, sc.rest, sqrt);
      if res.Drawn? {
        SuffixTransitive(res.rest, sc.rest, s);
      }
    }
  }

  /** Every member's albedo lies in the unit cube. */
  predicate AlbedosInUnitCube(world: seq<Sphere>) {
    forall i :: 0 <= i < |world| ==> InUnitCube(world[i].material.albedo)
  }

  /** When every albedo lies in [0, 1], so does every colour: each bounce
      multiplies by an albedo, and the sky and black lie in [0, 1]. */
  lemma {:induction false} ColorInUnitCube(r: Ray, world: seq<Sphere>, depth: nat, s: seq<Unit01>, sqrt: SqrtFn)
    requires IsSqrt(sqrt)
    requires AlbedosInUnitCube(world)
    ensures Color(r, world, depth, s, sqrt).Drawn? ==> InUnitCube(Color(r, world, depth, s, sqrt).value)
    decreases MaxDepth - depth, 1
  {
    var h := ListHit(world, r, TMin, F32Max, sqrt);
    if h.None? {
      BackgroundBlend(r.direction, sqrt);
    } else {
      var rec := h.value;
      HitMaterialFromWorld(world, r, sqrt);
      ScatterKeepsAlbedo(rec.material, r, rec, s, sqrt);
      BounceInUnitCube(MaterialScatter(rec.material, r, rec, s, sqrt), world, depth, sqrt);
    }
  }

  lemma {:induction false} BounceInUnitCube(sc: Sampled<Option<Scatter>>, world: seq<Sphere>, depth: nat, sqrt: SqrtFn)
    requires IsSqrt(sqrt)
    requires AlbedosInUnitCube(world)
    requires sc.Drawn? && sc.value.Some? ==> InUnitCube(sc.value.value.attenuation)
    ensures Bounce(sc, world, depth, sqrt).Drawn? ==> InUnitCube(Bounce(sc, world, depth, sqrt).value)
    decreases MaxDepth - depth, 0
  {
    if sc.Drawn? && sc.value.Some? && depth < MaxDepth {
      var scatter := sc.value.value;
      ColorInUnitCube(scatter.scattered, world, depth + 1, sc.rest, sqrt);
      var res := Color(scatter.scattered, world, depth + 1, sc.rest, sqrt);
      if res.Drawn? {
        AttenuateInUnitCube(scatter.attenuation, res.value);
      }
    }
  }

  /** The material of the world's hit is the material of one of its members. */
  lemma HitMaterialFromWorld(world: seq<Sphere>, r: Ray, sqrt: SqrtFn)
    requires IsSqrt(sqrt)
    requires ListHit(world, r, TMin, F32Max, sqrt).Some?
    ensures exists k :: 0 <= k < |world| && ListHit(world, r, TMin, F32Max, sqrt).value.material == world[k].material
  {
    ListHitFirstNearest(world, r, TMin, F32Max, sqrt);
  }

  /** Attenuating a colour in the unit cube by an albedo in the unit cube
      stays in the unit cube. */
  lemma AttenuateInUnitCube(a: Vec3, c: Vec3)
    requires InUnitCube(a) && InUnitCube(c)
    ensures InUnitCube(Mul(a, c))
  {
    MulUnitInterval(a.x, c.x, a.x * c.x);
    MulUnitInterval(a.y, c.y, a.y * c.y);
    MulUnitInterval(a.z, c.z, a.z * c.z);
  }
}
