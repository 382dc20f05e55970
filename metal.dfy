/** `Metal` (src/rt/materials/metal.rs): mirror reflection of the incoming direction,
    perturbed by `fuzz` times a point of the unit ball. */
module Metals {
  import opened Floats
  import opened Vectors
  import opened Rays
  import opened Sampling
  import opened Materials
  import opened HitRecords

  /** `Metal::new(albedo, fuzz)`: a fuzz of 1 or more is stored as 1; smaller values,
      negative ones included, are kept. */
  function New(albedo: Vec3, fuzz: real): (m: Material)
    ensures m.Metal? && m.color == albedo && m.fuzz <= 1.0
    ensures fuzz < 1.0 ==> m.fuzz == fuzz
    ensures 1.0 <= fuzz ==> m.fuzz == 1.0
  {
    Metal(albedo, if fuzz < 1.0 then fuzz else 1.0)
  }

  /** The direction of the scattered ray: the reflected unit direction plus `fuzz` times
      the unit-ball sample. */
  function Direction(f: FloatOps, fuzz: real, rIn: Ray, rec: HitRecord, draws: SphereDraws): Vec3 {
    Add(Reflect(UnitVector(f, rIn.direction), rec.normal), ScaleLeft(fuzz, InUnitSphere(draws)))
  }

  /** `scatter(r_in, rec)`: the albedo and a ray from the hit point at the incoming time,
      or `None` when the perturbed reflection does not leave the surface on the normal's
      side. */
  function Scatter(f: FloatOps, m: Material, rIn: Ray, rec: HitRecord, draws: SphereDraws): (res: Option<Scattered>)
    requires m.Metal?
    ensures res.Some? <==> Dot(Direction(f, m.fuzz, rIn, rec, draws), rec.normal) > 0.0
    ensures res.Some? ==>
              && res.value.attenuation == m.color
              && res.value.ray == Ray(rec.p, Direction(f, m.fuzz, rIn, rec, draws), rIn.time)
              && 0.0 < Dot(res.value.ray.direction, rec.normal)
  {
    var scattered := Ray(rec.p, Direction(f, m.fuzz, rIn, rec, draws), rIn.time);
    if Dot(scattered.direction, rec.normal) > 0.0 then Some(Scattered(m.color, scattered)) else None
  }

  // ---------------------------------------------------------------- properties

  /** Without fuzz the scattered direction is the exact mirror image of the unit incoming
      direction, and for a unit normal the metal scatters exactly when the ray arrives
      against the normal. */
  lemma {:induction false} PolishedMirror(f: FloatOps, albedo: Vec3, rIn: Ray, rec: HitRecord, draws: SphereDraws)
    requires Dot(rec.normal, rec.normal) == 1.0
    ensures var u := UnitVector(f, rIn.direction);
            && Direction(f, 0.0, rIn, rec, draws) == Reflect(u, rec.normal)
            && (Scatter(f, New(albedo, 0.0), rIn, rec, draws).Some? <==> Dot(u, rec.normal) < 0.0)
  {
    var u := UnitVector(f, rIn.direction);
    var refl := Reflect(u, rec.normal);
    assert ScaleLeft(0.0, InUnitSphere(draws)) == Vec3(0.0, 0.0, 0.0);
    assert Direction(f, 0.0, rIn, rec, draws) == refl;
    ReflectNegatesNormal(u, rec.normal);
  }
}
