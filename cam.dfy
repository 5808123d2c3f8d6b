/** The camera (src/cam.rs): a viewport given by its lower-left corner and
    two edge vectors, seen from an origin. */
module Cam {
  import opened Vec
  import opened Rays

  datatype Camera = Camera(origin: Vec3, lowerLeftCorner: Vec3, horizontal: Vec3, vertical: Vec3)

  /** The point of the viewport at fractions `u` across and `v` up. */
  function ViewportPoint(c: Camera, u: real, v: real): Vec3 {
    Add(Add(c.lowerLeftCorner, ScalarMul(u, c.horizontal)), ScalarMul(v, c.vertical))
  }

  /** `get_ray(u, v)`: the ray from the origin towards the viewport point at
      `(u, v)`, reaching it at parameter 1. */
  function GetRay(c: Camera, u: real, v: real): (r: Ray)
    ensures r.origin == c.origin
    ensures PointAt(r, 1.0) == ViewportPoint(c, u, v)
  {
    Ray(c.origin, Sub(Add(Add(c.lowerLeftCorner, ScalarMul(u, c.horizontal)), ScalarMul(v, c.vertical)), c.origin))
  }

  /** The corners of the viewport are reached at (0, 0), (1, 0), (0, 1) and
      (1, 1). */
  lemma GetRayCorners(c: Camera)
    ensures PointAt(GetRay(c, 0.0, 0.0), 1.0) == c.lowerLeftCorner
    ensures PointAt(GetRay(c, 1.0, 0.0), 1.0) == Add(c.lowerLeftCorner, c.horizontal)
    ensures PointAt(GetRay(c, 0.0, 1.0), 1.0) == Add(c.lowerLeftCorner, c.vertical)
    ensures PointAt(GetRay(c, 1.0, 1.0), 1.0) == Add(Add(c.lowerLeftCorner, c.horizontal), c.vertical)
  {
  }

  /** The direction is affine in `(u, v)`: it moves by `u * horizontal +
      v * vertical` from the direction towards the lower-left corner. */
  lemma GetRayAffine(c: Camera, u: real, v: real)
    ensures Sub(GetRay(c, u, v).direction, GetRay(c, 0.0, 0.0).direction)
              == Add(ScalarMul(u, c.horizontal), ScalarMul(v, c.vertical))
  {
  }
}
