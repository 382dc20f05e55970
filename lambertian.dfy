/** `Lambertian` (src/rt/materials/lambertian.rs): diffuse reflection towards the normal
    plus a random unit vector. */
module Lambertians {
  import opened Floats
  import opened Vectors
  import opened Rays
  import opened Sampling
  import opened Noise
  import opened Textures
  import opened Materials
  import opened HitRecords

  /** `from_texture(albedo)`. */
  function FromTexture(albedo: Texture): (m: Material)
    ensures m.Lambertian? && m.albedo == albedo
  {
    Lambertian(albedo)
  }

  /** `from_color(albedo)`: the colour wrapped in a solid texture. */
  function FromColor(albedo: Vec3): (m: Material)
    ensures m == FromTexture(SolidColor(albedo))
  {
    FromTexture(NewSolidColor(albedo))
  }

  /** The scatter direction: normal plus the normalised unit-ball sample, replaced by the
      normal itself when it is `near_zero`. */
  function Direction(f: FloatOps, rec: HitRecord, draws: SphereDraws): (d: Vec3)
    ensures d == rec.normal || d == Add(rec.normal, UnitVector(f, InUnitSphere(draws)))
    ensures !NearZero(rec.normal) ==> !NearZero(d)
  {
    var scatterDirection := Add(rec.normal, UnitVector(f, InUnitSphere(draws)));
    if NearZero(scatterDirection) then rec.normal else scatterDirection
  }

  /** `scatter(r_in, rec)`: always scatters, attenuating by the albedo at the hit's
      (u, v, p), along `Direction` from the hit point at the incoming time. */
  function Scatter(f: FloatOps, interp: Interp, m: Material, rIn: Ray, rec: HitRecord, draws: SphereDraws): (res: Option<Scattered>)
    requires m.Lambertian? && Usable(m.albedo)
    ensures res.Some?
    ensures res.value.attenuation == Value(f, interp, m.albedo, rec.u, rec.v, rec.p)
    ensures res.value.ray == Ray(rec.p, Direction(f, rec, draws), rIn.time)
  {
    Some(Scattered(Value(f, interp, m.albedo, rec.u, rec.v, rec.p), Ray(rec.p, Direction(f, rec, draws), rIn.time)))
  }

  // ---------------------------------------------------------------- properties

  /** A Lambertian surface of one colour attenuates by that colour wherever it is hit. */
  lemma SolidAlbedo(f: FloatOps, interp: Interp, c: Vec3, rIn: Ray, rec: HitRecord, draws: SphereDraws)
    ensures Scatter(f, interp, FromColor(c), rIn, rec, draws).value.attenuation == c
  {
  }
}
