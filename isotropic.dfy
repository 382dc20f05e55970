/** `Isotropic` (src/rt/materials/isotropic.rs): the phase function of a participating
    medium, scattering in a direction drawn from the unit ball. */
module Isotropics {
  import opened Floats
  import opened Vectors
  import opened Rays
  import opened Sampling
  import opened Noise
  import opened Textures
  import opened Materials
  import opened HitRecords

  /** `from_texture(albedo)`. */
  function FromTexture(albedo: Texture): (m: Material)
    ensures m.Isotropic? && m.phase == albedo
  {
    Isotropic(albedo)
  }

  /** `from_color(albedo)`: the colour wrapped in a solid texture. */
  function FromColor(albedo: Vec3): (m: Material)
    ensures m == FromTexture(SolidColor(albedo))
  {
    FromTexture(NewSolidColor(albedo))
  }

  /** `scatter(r_in, rec)`: always scatters, attenuating by the albedo at the hit's
      (u, v, p), from the hit point at the incoming time, towards the unit-ball sample. */
  function Scatter(f: FloatOps, interp: Interp, m: Material, rIn: Ray, rec: HitRecord, draws: SphereDraws): (res: Option<Scattered>)
    requires m.Isotropic? && Usable(m.phase)
    ensures res.Some?
    ensures res.value.attenuation == Value(f, interp, m.phase, rec.u, rec.v, rec.p)
    ensures res.value.ray.origin == rec.p && res.value.ray.time == rIn.time
    ensures res.value.ray.direction == InUnitSphere(draws) && LengthSquared(res.value.ray.direction) < 1.0
  {
    Some(Scattered(Value(f, interp, m.phase, rec.u, rec.v, rec.p), Ray(rec.p, InUnitSphere(draws), rIn.time)))
  }
}
