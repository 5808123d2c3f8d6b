/** Rays.  The source declares a `ray` module whose text is not part of this
    model; the definition below (an origin, a direction, and
    `point_at(t) = origin + t * direction`) is assumed from its uses. */
module Rays {
  import opened Vec

  datatype Ray = Ray(origin: Vec3, direction: Vec3)

  /** The point at parameter `t` along the ray. */
  function PointAt(r: Ray, t: real): (p: Vec3)
    ensures Sub(p, r.origin) == ScalarMul(t, r.direction)
  {
    Add(r.origin, ScalarMul(t, r.direction))
  }
}
