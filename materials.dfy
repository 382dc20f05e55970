/** The `Material` trait (src/rt/materials/mod.rs). The five implementations are the
    variants of one datatype; each implementation's constructors and `scatter` live in
    their own module, and the trait's default methods are defined here. */
module Materials {
  import opened Floats
  import opened Vectors
  import opened Textures
  import opened Rays

  datatype Material =
    | Lambertian(albedo: Texture)
    | Metal(color: Vec3, fuzz: real)
    | Dielectric(ior: real)
    | DiffuseLight(emit: Texture)
    | Isotropic(phase: Texture)

  /** The `(Color, Ray)` pair that the Lambertian, metal, isotropic and diffuse-light
      `scatter` implementations return: the attenuation and the scattered ray. */
  datatype Scattered = Scattered(attenuation: Vec3, ray: Ray)

  /** Every texture inside the material can be evaluated. */
  predicate MaterialUsable(m: Material) {
    match m
    case Lambertian(albedo) => Usable(albedo)
    case Metal(_, _) => true
    case Dielectric(_) => true
    case DiffuseLight(emit) => Usable(emit)
    case Isotropic(phase) => Usable(phase)
  }

  /** `Material::scattering_pdf`: no implementation overrides the default. */
  function ScatteringPdf(m: Material): (pdf: real)
    ensures pdf == 0.0
  {
    0.0
  }
}
