/** A list of objects as one object (`Hittable for Vec<T>`, src/hit.rs:30-42).

    The members are tried in order; each is asked for a hit between the
    start of the range and the closest hit found so far, so a later member
    replaces the record only when it is strictly closer.  The scene is a
    list of spheres, so the members here are spheres. */
module HitList {
  import opened Vec
  import opened Rays
  import opened Hit
  import opened Mat
  import opened Sph

  /** The far end of the range for the next member: the closest hit so far,
      or the end of the range while nothing has been hit. */
  function Closest(h: Option<HitRecord<Material>>, tMax: real): real {
    if h.Some? then h.value.t else tMax
  }

  /** The record the scan holds after visiting every member of `world`. */
  function ListHit(world: seq<Sphere>, r: Ray, tMin: real, tMax: real, sqrt: SqrtFn): (h: Option<HitRecord<Material>>)
    ensures h.Some? ==> tMin < h.value.t < tMax
    ensures |world| == 0 ==> h.None?
    decreases |world|
  {
    if |world| == 0 then
      None
    else
      var prev := ListHit(world[..|world| - 1], r, tMin, tMax, sqrt);
      match SphereHit(world[|world| - 1], r, tMin, Closest(prev, tMax), sqrt)
      case Some(rec) => Some(rec)
      case None => prev
  }

  /** The scanning loop of `hit` for a list. */
  method ListHitScan(world: seq<Sphere>, r: Ray, tMin: real, tMax: real, sqrt: SqrtFn)
    returns (hitRec: Option<HitRecord<Material>>)
    ensures hitRec == ListHit(world, r, tMin, tMax, sqrt)
  {
    var closestSoFar := tMax;
    hitRec := None;
    var i := 0;
    while i < |world|
      invariant 0 <= i <= |world|
      invariant hitRec == ListHit(world[..i], r, tMin, tMax, sqrt)
      invariant closestSoFar == Closest(hitRec, tMax)
    {
      assert world[..i + 1][..i] == world[..i];
      var h := SphereHit(world[i], r, tMin, closestSoFar, sqrt);
      if h.Some? {
        closestSoFar := h.value.t;
        hitRec := h;
      }
      i := i + 1;
    }
    assert world[..|world|] == world;
  }

  /** The list misses exactly when every member misses over the whole range. */
  lemma {:induction false} ListHitNoneIff(world: seq<Sphere>, r: Ray, tMin: real, tMax: real, sqrt: SqrtFn)
    ensures ListHit(world, r, tMin, tMax, sqrt).None? <==>
              forall i :: 0 <= i < |world| ==> SphereHit(world[i], r, tMin, tMax, sqrt).None?
    decreases |world|
  {
    if |world| > 0 {
      var w' := world[..|world| - 1];
      ListHitNoneIff(w', r, tMin, tMax, sqrt);
      assert forall i :: 0 <= i < |w'| ==> w'[i] == world[i];
    }
  }

  /** Once the scan holds a record it keeps one, and its `t` never grows:
      the record after a prefix is never replaced by a farther one. */
  lemma {:induction false} ListHitNeverFarther(world: seq<Sphere>, k: nat, r: Ray, tMin: real, tMax: real, sqrt: SqrtFn)
    requires k <= |world|
    requires ListHit(world[..k], r, tMin, tMax, sqrt).Some?
    ensures ListHit(world, r, tMin, tMax, sqrt).Some?
    ensures ListHit(world, r, tMin, tMax, sqrt).value.t <= ListHit(world[..k], r, tMin, tMax, sqrt).value.t
    decreases |world| - k
  {
    if k == |world| {
      assert world[..k] == world;
    } else {
      var w' := world[..|world| - 1];
      assert w'[..k] == world[..k];
      ListHitNeverFarther(w', k, r, tMin, tMax, sqrt);
    }
  }

  /** With an exact square root the list's hit is no farther than any
      member's own hit over the whole range. */
  lemma {:induction false} ListHitNearest(world: seq<Sphere>, r: Ray, tMin: real, tMax: real, sqrt: SqrtFn)
    requires IsSqrt(sqrt)
    ensures var h := ListHit(world, r, tMin, tMax, sqrt);
            h.Some? ==> forall i :: 0 <= i < |world| && SphereHit(world[i], r, tMin, tMax, sqrt).Some? ==>
                          h.value.t <= SphereHit(world[i], r, tMin, tMax, sqrt).value.t
    decreases |world|
  {
    if |world| > 0 {
      var w' := world[..|world| - 1];
      var x := world[|world| - 1];
      var prev := ListHit(w', r, tMin, tMax, sqrt);
      ListHitNearest(w', r, tMin, tMax, sqrt);
      ListHitNoneIff(w', r, tMin, tMax, sqrt);
      SphereHitNarrowed(x, r, tMin, tMax, Closest(prev, tMax), sqrt);
      assert forall i :: 0 <= i < |w'| ==> w'[i] == world[i];
    }
  }

  /** With an exact square root the list's hit is the hit of one member, and
      of the first member whose own hit is nearest: every earlier member
      either misses or is hit strictly farther away. */
  lemma {:induction false} ListHitFirstNearest(world: seq<Sphere>, r: Ray, tMin: real, tMax: real, sqrt: SqrtFn)
    requires IsSqrt(sqrt)
    requires ListHit(world, r, tMin, tMax, sqrt).Some?
    ensures var h := ListHit(world, r, tMin, tMax, sqrt);
            exists k :: 0 <= k < |world| && h == SphereHit(world[k], r, tMin, tMax, sqrt) &&
              forall j :: 0 <= j < k && SphereHit(world[j], r, tMin, tMax, sqrt).Some? ==>
                h.value.t < SphereHit(world[j], r, tMin, tMax, sqrt).value.t
    decreases |world|
  {
    var w' := world[..|world| - 1];
    var x := world[|world| - 1];
    var prev := ListHit(w', r, tMin, tMax, sqrt);
    var h := ListHit(world, r, tMin, tMax, sqrt);
    SphereHitNarrowed(x, r, tMin, tMax, Closest(prev, tMax), sqrt);
    assert forall i :: 0 <= i < |w'| ==> w'[i] == world[i];
    if SphereHit(x, r, tMin, Closest(prev, tMax), sqrt).Some? {
      var k := |world| - 1;
      assert h == SphereHit(world[k], r, tMin, tMax, sqrt);
      ListHitNearest(w', r, tMin, tMax, sqrt);
      ListHitNoneIff(w', r, tMin, tMax, sqrt);
    } else {
      ListHitFirstNearest(w', r, tMin, tMax, sqrt);
      var k :| 0 <= k < |w'| && prev == SphereHit(w'[k], r, tMin, tMax, sqrt) &&
        forall j :: 0 <= j < k && SphereHit(w'[j], r, tMin, tMax, sqrt).Some? ==>
          prev.value.t < SphereHit(w'[j], r, tMin, tMax, sqrt).value.t;
      assert h == SphereHit(world[k], r, tMin, tMax, sqrt);
    }
  }

  /** Reordering the list can change which of two equally near members
      supplies the record, but not whether there is a hit nor its `t`. */
  lemma ListHitOrderInvariant(w1: seq<Sphere>, w2: seq<Sphere>, r: Ray, tMin: real, tMax: real, sqrt: SqrtFn)
    requires IsSqrt(sqrt)
    requires multiset(w1) == multiset(w2)
    ensures ListHit(w1, r, tMin, tMax, sqrt).Some? == ListHit(w2, r, tMin, tMax, sqrt).Some?
    ensures ListHit(w1, r, tMin, tMax, sqrt).Some? ==>
              ListHit(w1, r, tMin, tMax, sqrt).value.t == ListHit(w2, r, tMin, tMax, sqrt).value.t
  {
    if ListHit(w1, r, tMin, tMax, sqrt).Some? {
      ListHitNoFartherThanPermuted(w1, w2, r, tMin, tMax, sqrt);
      ListHitNoFartherThanPermuted(w2, w1, r, tMin, tMax, sqrt);
    } else if ListHit(w2, r, tMin, tMax, sqrt).Some? {
      ListHitNoFartherThanPermuted(w2, w1, r, tMin, tMax, sqrt);
    }
  }

  /** If a list hits, any reordering of it hits too, no farther away. */
  lemma ListHitNoFartherThanPermuted(w1: seq<Sphere>, w2: seq<Sphere>, r: Ray, tMin: real, tMax: real, sqrt: SqrtFn)
    requires IsSqrt(sqrt)
    requires multiset(w1) == multiset(w2)
    requires ListHit(w1, r, tMin, tMax, sqrt).Some?
    ensures ListHit(w2, r, tMin, tMax, sqrt).Some?
    ensures ListHit(w2, r, tMin, tMax, sqrt).value.t <= ListHit(w1, r, tMin, tMax, sqrt).value.t
  {
    var h1 := ListHit(w1, r, tMin, tMax, sqrt);
    ListHitFirstNearest(w1, r, tMin, tMax, sqrt);
    var k :| 0 <= k < |w1| && h1 == SphereHit(w1[k], r, tMin, tMax, sqrt);
    assert w1[k] in multiset(w2);
    var j :| 0 <= j < |w2| && w2[j] == w1[k];
    ListHitNoneIff(w2, r, tMin, tMax, sqrt);
    ListHitNearest(w2, r, tMin, tMax, sqrt);
  }

  /** With an exact square root, the list's hit is the first surface point
      of the whole scene along the ray: no member has a surface point in the
      range before it (members the ray only grazes, with discriminant 0, are
      never reported and are excepted). */
  lemma ListHitFirstSurface(world: seq<Sphere>, r: Ray, tMin: real, tMax: real, sqrt: SqrtFn)
    requires IsSqrt(sqrt)
    ensures var h := ListHit(world, r, tMin, tMax, sqrt);
            forall i, t :: (0 <= i < |world| && Discriminant(world[i], r) != 0.0 &&
                            tMin < t < Closest(h, tMax)) ==> !OnSurface(world[i], r, t)
  {
    var h := ListHit(world, r, tMin, tMax, sqrt);
    ListHitNearest(world, r, tMin, tMax, sqrt);
    forall i | 0 <= i < |world| && Discriminant(world[i], r) != 0.0
      ensures forall t :: tMin < t < Closest(h, tMax) ==> !OnSurface(world[i], r, t)
    {
      if SphereHit(world[i], r, tMin, tMax, sqrt).Some? {
        SphereHitIsNearestRoot(world[i], r, tMin, tMax, sqrt);
      } else {
        SphereMissHasNoRoot(world[i], r, tMin, tMax, sqrt);
      }
    }
  }
}
