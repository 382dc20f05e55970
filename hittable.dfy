/** The `Hittable` trait (src/rt/shapes/mod.rs) as a record of its two methods. A
    decorator (flip, translate, rotate, constant volume) holds its child as such a
    record, whatever shape the child is. */
module Hittables {
  import opened Floats
  import opened Rays
  import opened Boxes
  import opened HitRecords

  /** `hit(r, t_min, t_max)` and `bounding_box(time0, time1)` of one object. */
  datatype Shape = Shape(hit: (Ray, Ext, Ext) -> Option<HitRecord>,
                         boundingBox: (real, real) -> Option<Aabb>)

  /** The object reports only hits inside the interval it is asked about. */
  ghost predicate HitsInRange(s: Shape) {
    forall r, lo, hi :: s.hit(r, lo, hi).Some? ==> InRange(s.hit(r, lo, hi).value.t, lo, hi)
  }
}
