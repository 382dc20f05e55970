/** `Ray` (src/rt/ray.rs): an origin, an unnormalised direction and a time. */
module Rays {
  import opened Vectors

  datatype Ray = Ray(origin: Vec3, direction: Vec3, time: real)

  /** `at`: the point `origin + t * direction`. */
  function At(r: Ray, t: real): (p: Vec3)
    ensures Sub(p, r.origin) == ScaleLeft(t, r.direction)
  {
    Add(r.origin, ScaleLeft(t, r.direction))
  }

  lemma AtZero(r: Ray)
    ensures At(r, 0.0) == r.origin
  {
  }

  /** Moving along the ray is affine in the parameter. */
  lemma AtDifference(r: Ray, t0: real, t1: real)
    ensures Sub(At(r, t1), At(r, t0)) == ScaleLeft(t1 - t0, r.direction)
  {
  }
}
