/** `DiffuseLight` (src/rt/materials/diffuse_light.rs): an emitter that never scatters. */
module DiffuseLights {
  import opened Floats
  import opened Vectors
  import opened Rays
  import opened Noise
  import opened Textures
  import opened Materials
  import opened HitRecords

  /** `from_texture(emit)`. */
  function FromTexture(emit: Texture): (m: Material)
    ensures m.DiffuseLight? && m.emit == emit
  {
    DiffuseLight(emit)
  }

  /** `from_color(emit)`: the colour wrapped in a solid texture. */
  function FromColor(emit: Vec3): (m: Material)
    ensures m == FromTexture(SolidColor(emit))
  {
    FromTexture(NewSolidColor(emit))
  }

  /** `scatter`: a light absorbs every ray. */
  function Scatter(m: Material, rIn: Ray, rec: HitRecord): (res: Option<Scattered>)
    requires m.DiffuseLight?
    ensures res.None?
  {
    None
  }

  /** `emitted(u, v, p)`: the emit texture at (u, v, p); neither the ray nor the face hit
      is an argument. */
  function Emitted(f: FloatOps, interp: Interp, m: Material, u: real, v: real, p: Vec3): Vec3
    requires m.DiffuseLight? && Usable(m.emit)
  {
    Value(f, interp, m.emit, u, v, p)
  }

  // ---------------------------------------------------------------- properties

  /** A light built from a colour emits that colour everywhere. */
  lemma ConstantEmission(f: FloatOps, interp: Interp, c: Vec3, u: real, v: real, p: Vec3)
    ensures Emitted(f, interp, FromColor(c), u, v, p) == c
  {
  }
}
