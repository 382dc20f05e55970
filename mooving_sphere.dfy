/** `MovingSphere` (src/rt/shapes/mooving_sphere.rs): a sphere whose centre moves
    linearly from `center0` at `time0` to `center1` at `time1`. */
module MovingSpheres {
  import opened Floats
  import opened Vectors
  import opened Rays
  import opened Boxes
  import opened Materials
  import opened HitRecords
  import opened Hittables
  import Spheres

  datatype MovingSphere = MovingSphere(center0: Vec3, center1: Vec3, time0: real, time1: real,
                                       radius: real, material: Material)

  /** `center(time)`: `center0 + ((time - time0) / (time1 - time0)) * (center1 - center0)`. */
  function Center(f: FloatOps, ms: MovingSphere, time: real): (c: Vec3)
    ensures ms.time1 != ms.time0 ==>
              Scale(Sub(c, ms.center0), ms.time1 - ms.time0) == Scale(Sub(ms.center1, ms.center0), time - ms.time0)
  {
    Add(ms.center0, ScaleLeft(FDiv(f, time - ms.time0, ms.time1 - ms.time0), Sub(ms.center1, ms.center0)))
  }

  /** `hit`: the sphere's intersection code run at the centre for the ray's own time. */
  function Hit(f: FloatOps, ms: MovingSphere, r: Ray, tMin: Ext, tMax: Ext): (res: Option<HitRecord>)
    ensures res.Some? ==> InRange(res.value.t, tMin, tMax)
  {
    Spheres.HitAt(f, Center(f, ms, r.time), ms.radius, ms.material, r, tMin, tMax)
  }

  /** `bounding_box(time0, time1)`: the surrounding box of the radius boxes at the centres
      for the two given times. */
  function BoundingBox(f: FloatOps, ms: MovingSphere, time0: real, time1: real): (b: Option<Aabb>)
    ensures b.Some?
    ensures Contains(b.value, Spheres.RadiusBox(Center(f, ms, time0), ms.radius))
    ensures Contains(b.value, Spheres.RadiusBox(Center(f, ms, time1), ms.radius))
    ensures forall c :: (Contains(c, Spheres.RadiusBox(Center(f, ms, time0), ms.radius)) &&
                         Contains(c, Spheres.RadiusBox(Center(f, ms, time1), ms.radius))) ==> Contains(c, b.value)
  {
    var box0 := Spheres.RadiusBox(Center(f, ms, time0), ms.radius);
    var box1 := Spheres.RadiusBox(Center(f, ms, time1), ms.radius);
    Some(SurroundingBox(box0, box1))
  }

  function AsShape(f: FloatOps, ms: MovingSphere): (s: Shape)
    ensures forall r, lo, hi :: s.hit(r, lo, hi) == Hit(f, ms, r, lo, hi)
    ensures forall t0, t1 :: s.boundingBox(t0, t1) == BoundingBox(f, ms, t0, t1)
  {
    Shape((r, lo, hi) => Hit(f, ms, r, lo, hi), (t0, t1) => BoundingBox(f, ms, t0, t1))
  }

  // ---------------------------------------------------------------- properties

  /** The centre is `center0` at `time0` and `center1` at `time1` (for distinct times). */
  lemma {:induction false} CenterEndpoints(f: FloatOps, ms: MovingSphere)
    requires ms.time1 != ms.time0
    ensures Center(f, ms, ms.time0) == ms.center0
    ensures Center(f, ms, ms.time1) == ms.center1
  {
    var d := ms.time1 - ms.time0;
    assert FDiv(f, d, d) == 1.0;
    assert FDiv(f, ms.time0 - ms.time0, d) == 0.0;
  }

  /** A hit of the moving sphere is the static sphere's hit at the centre for the ray's
      time: it lies on that sphere, at the nearest parameter in range that does. */
  lemma {:induction false} HitIsSphereAtRayTime(f: FloatOps, ms: MovingSphere, r: Ray, tMin: Ext, tMax: Ext)
    requires SqrtLaw(f) && 0.0 < LengthSquared(r.direction)
    ensures var s := Spheres.Sphere(Center(f, ms, r.time), ms.radius, ms.material);
            Hit(f, ms, r, tMin, tMax) == Spheres.Hit(f, s, r, tMin, tMax)
    ensures var c := Center(f, ms, r.time);
            var res := Hit(f, ms, r, tMin, tMax);
            res.Some? ==>
              && LengthSquared(Sub(res.value.p, c)) == ms.radius * ms.radius
              && forall t | InRange(t, tMin, tMax) && LengthSquared(Sub(At(r, t), c)) == ms.radius * ms.radius ::
                   res.value.t <= t
  {
    var s := Spheres.Sphere(Center(f, ms, r.time), ms.radius, ms.material);
    Spheres.HitIsNearest(f, s, r, tMin, tMax);
    if Hit(f, ms, r, tMin, tMax).Some? {
      Spheres.HitOnSphere(f, s, r, tMin, tMax);
    }
  }
}
