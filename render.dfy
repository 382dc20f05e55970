/** The integrator of src/rt/mod.rs: `ray_color` follows a ray through the scene up to a
    bounce limit, and `render_pixel` sums `samples_per_pixel` camera rays through one
    pixel.

    Material dispatch: the Lambertian, metal, isotropic and diffuse-light `scatter`
    implementations return an attenuation and a ray, which `ray_color` treats as a
    specular record; the dielectric returns its own record. `emitted` is the diffuse
    light's emission and the trait default `BLACK` for every other material. */
module Integrator {
  import opened Floats
  import opened Vectors
  import opened Rays
  import opened Sampling
  import opened Noise
  import opened Textures
  import opened Materials
  import opened HitRecords
  import opened Hittables
  import opened Pdfs
  import opened ScatterRecords
  import opened Cameras
  import XzRects
  import Lambertians
  import Metals
  import Dielectrics
  import DiffuseLights
  import Isotropics

  /** The random draws one bounce consumes: unit-ball candidates (Lambertian, metal,
      isotropic), the draw a dielectric compares with its reflectance, and the stream a
      sampling density reads. */
  datatype BounceDraws = BounceDraws(sphere: SphereDraws, reflect: Unit, pdf: nat -> Unit)

  /** Every record the world returns carries a material whose textures can be evaluated. */
  ghost predicate WorldUsable(world: Shape) {
    forall r, lo, hi :: world.hit(r, lo, hi).Some? ==> MaterialUsable(world.hit(r, lo, hi).value.material)
  }

  /** The `(Color, Ray)` pair of the tuple-returning materials, read as a specular record. */
  function AsSpecular(s: Option<Scattered>): (res: Option<ScatterRecord>)
    ensures res.None? <==> s.None?
    ensures s.Some? ==> res.value == Specular(s.value.attenuation, s.value.ray)
  {
    match s
    case None => None
    case Some(Scattered(attenuation, ray)) => Some(Specular(attenuation, ray))
  }

  /** `rec.material.scatter(r, &rec)`, dispatched on the material. */
  function Scatter(f: FloatOps, interp: Interp, m: Material, rIn: Ray, rec: HitRecord, d: BounceDraws): (res: Option<ScatterRecord>)
    requires MaterialUsable(m)
    ensures m.DiffuseLight? ==> res.None?
    ensures res.None? ==> m.DiffuseLight? || m.Metal?
    ensures res.Some? ==> res.value.Specular? && res.value.ray.origin == rec.p && res.value.ray.time == rIn.time
  {
    match m
    case Lambertian(_) => AsSpecular(Lambertians.Scatter(f, interp, m, rIn, rec, d.sphere))
    case Metal(_, _) => AsSpecular(Metals.Scatter(f, m, rIn, rec, d.sphere))
    case Dielectric(_) => Dielectrics.Scatter(f, m, rIn, rec, d.reflect)
    case DiffuseLight(_) => AsSpecular(DiffuseLights.Scatter(m, rIn, rec))
    case Isotropic(_) => AsSpecular(Isotropics.Scatter(f, interp, m, rIn, rec, d.sphere))
  }

  /** `rec.material.emitted(r, &rec, rec.u, rec.v, rec.p)`: the light's emission at the
      hit, `BLACK` for the other materials. */
  function Emitted(f: FloatOps, interp: Interp, m: Material, rec: HitRecord): (c: Vec3)
    requires MaterialUsable(m)
    ensures !m.DiffuseLight? ==> c == BLACK
  {
    if m.DiffuseLight? then DiffuseLights.Emitted(f, interp, m, rec.u, rec.v, rec.p) else BLACK
  }

  /** `ray_color(r, background, world, lights, depth)`, the bounce at depth `k` reading
      its draws from `draws(k)`. */
  function RayColor(f: FloatOps, interp: Interp, r: Ray, background: Vec3, world: Shape,
                    lights: XzRects.XzRect, depth: nat, draws: nat -> BounceDraws): Vec3
    requires WorldUsable(world)
    decreases depth
  {
    if depth == 0 then BLACK
    else
      match world.hit(r, Fin(0.001), PosInf)
      case None => background
      case Some(rec) =>
        var emitted := Emitted(f, interp, rec.material, rec);
        match Scatter(f, interp, rec.material, r, rec, draws(depth))
        case None => emitted
        case Some(Specular(attenuation, ray)) =>
          Mul(attenuation, RayColor(f, interp, ray, background, world, lights, depth - 1, draws))
        case Some(Diffuse(attenuation, pdf)) =>
          var p := MixturePdf(HittablePdf(lights, rec.p), pdf);
          var scattered := Ray(rec.p, Generate(f, p, draws(depth).pdf, 0), r.time);
          var pdfValue := Pdfs.Value(f, p, scattered.direction);
          Add(emitted,
              Div(f, Mul(Scale(attenuation, ScatteringPdf(rec.material)),
                         RayColor(f, interp, scattered, background, world, lights, depth - 1, draws)),
                  pdfValue))
  }

  // ---------------------------------------------------------------- properties

  /** No light is gathered once the bounce limit is reached. */
  lemma NoBouncesLeft(f: FloatOps, interp: Interp, r: Ray, background: Vec3, world: Shape,
                      lights: XzRects.XzRect, draws: nat -> BounceDraws)
    requires WorldUsable(world)
    ensures RayColor(f, interp, r, background, world, lights, 0, draws) == BLACK
  {
  }

  /** A ray that misses the world (queried on [0.001, +inf)) sees the background. */
  lemma MissSeesBackground(f: FloatOps, interp: Interp, r: Ray, background: Vec3, world: Shape,
                           lights: XzRects.XzRect, depth: nat, draws: nat -> BounceDraws)
    requires WorldUsable(world) && 0 < depth
    requires world.hit(r, Fin(0.001), PosInf).None?
    ensures RayColor(f, interp, r, background, world, lights, depth, draws) == background
  {
  }

  /** A ray that hits a light sees exactly the light's emission at the hit. */
  lemma LightSeesEmission(f: FloatOps, interp: Interp, r: Ray, background: Vec3, world: Shape,
                          lights: XzRects.XzRect, depth: nat, draws: nat -> BounceDraws)
    requires WorldUsable(world) && 0 < depth
    requires var h := world.hit(r, Fin(0.001), PosInf);
             h.Some? && h.value.material.DiffuseLight?
    ensures var rec := world.hit(r, Fin(0.001), PosInf).value;
            RayColor(f, interp, r, background, world, lights, depth, draws)
              == Textures.Value(f, interp, rec.material.emit, rec.u, rec.v, rec.p)
  {
  }

  /** Any other material bounces: the colour is the attenuation times the colour seen one
      bounce further along the scattered ray, with no emission added; a metal whose
      perturbed reflection points into the surface contributes black. */
  lemma {:induction false} BounceAttenuates(f: FloatOps, interp: Interp, r: Ray, background: Vec3, world: Shape,
                          lights: XzRects.XzRect, depth: nat, draws: nat -> BounceDraws)
    requires WorldUsable(world) && 0 < depth
    requires var h := world.hit(r, Fin(0.001), PosInf);
             h.Some? && !h.value.material.DiffuseLight?
    ensures var rec := world.hit(r, Fin(0.001), PosInf).value;
            var s := Scatter(f, interp, rec.material, r, rec, draws(depth));
            && (s.None? ==> RayColor(f, interp, r, background, world, lights, depth, draws) == BLACK)
            && (s.Some? ==> RayColor(f, interp, r, background, world, lights, depth, draws)
                             == Mul(s.value.attenuation, RayColor(f, interp, s.value.ray, background, world, lights, depth - 1, draws)))
  {
    var rec := world.hit(r, Fin(0.001), PosInf).value;
    var s := Scatter(f, interp, rec.material, r, rec, draws(depth));
    assert Emitted(f, interp, rec.material, rec) == BLACK;
    if s.Some? {
      assert s.value.Specular?;
    }
  }

  /** Colours of a ray after one bounce at the last allowed depth: whatever is hit, only
      emission reaches the camera (every further bounce sees black). */
  lemma {:induction false} LastBounceOnlyEmission(f: FloatOps, interp: Interp, r: Ray, background: Vec3, world: Shape,
                                lights: XzRects.XzRect, draws: nat -> BounceDraws)
    requires WorldUsable(world)
    requires world.hit(r, Fin(0.001), PosInf).Some?
    ensures var rec := world.hit(r, Fin(0.001), PosInf).value;
            RayColor(f, interp, r, background, world, lights, 1, draws) == Emitted(f, interp, rec.material, rec)
  {
    var rec := world.hit(r, Fin(0.001), PosInf).value;
    var s := Scatter(f, interp, rec.material, r, rec, draws(1));
    if s.Some? {
      var c := Mul(s.value.attenuation, BLACK);
      assert c == BLACK;
      assert Emitted(f, interp, rec.material, rec) == BLACK;
    }
  }

  // ---------------------------------------------------------------- render_pixel

  /** The draws one sample of `render_pixel` consumes: the two pixel jitters, the lens and
      shutter draws of `get_ray`, and the bounce draws of `ray_color`. */
  datatype SampleDraws = SampleDraws(du: Unit, dv: Unit, disk: DiskDraws, time: Unit, bounces: nat -> BounceDraws)

  /** The colour one sample contributes: a camera ray through (x + du, y + dv) in
      viewport coordinates `(x + du) / (width - 1)`, `(y + dv) / (height - 1)`. */
  function SampleColor(f: FloatOps, interp: Interp, x: nat, y: nat, cam: Camera, background: Vec3,
                       world: Shape, lights: XzRects.XzRect, d: SampleDraws): Vec3
    requires WorldUsable(world) && 1 <= cam.width && 1 <= cam.height
  {
    var u := FDiv(f, x as real + d.du, (cam.width - 1) as real);
    var v := FDiv(f, y as real + d.dv, (cam.height - 1) as real);
    var r := GetRay(cam, u, v, d.disk, d.time);
    RayColor(f, interp, r, background, world, lights, cam.maxDepth, d.bounces)
  }

  /** The colours the samples see, in order. */
  function SampleColors(f: FloatOps, interp: Interp, x: nat, y: nat, cam: Camera, background: Vec3,
                        world: Shape, lights: XzRects.XzRect, samples: seq<SampleDraws>): (cs: seq<Vec3>)
    requires WorldUsable(world) && 1 <= cam.width && 1 <= cam.height
    ensures |cs| == |samples|
    ensures forall i | 0 <= i < |samples| :: cs[i] == SampleColor(f, interp, x, y, cam, background, world, lights, samples[i])
  {
    seq(|samples|, i requires 0 <= i < |samples| => SampleColor(f, interp, x, y, cam, background, world, lights, samples[i]))
  }

  /** The accumulated colour: the sum of `cs` added in order, starting from black. */
  function Sum(cs: seq<Vec3>): Vec3 {
    if |cs| == 0 then BLACK else Add(Sum(cs[..|cs| - 1]), cs[|cs| - 1])
  }

  /** `render_pixel(x, y, camera, background, world, lights)`: accumulates exactly
      `samples_per_pixel` sample colours, the i-th reading `samples[i]`. The pixel
      coordinates are turned into viewport coordinates by dividing by `width - 1` and
      `height - 1`. */
  method RenderPixel(f: FloatOps, interp: Interp, x: nat, y: nat, cam: Camera, background: Vec3,
                     world: Shape, lights: XzRects.XzRect, samples: seq<SampleDraws>) returns (color: Vec3)
    requires WorldUsable(world) && 1 <= cam.width && 1 <= cam.height
    requires |samples| == cam.samplesPerPixel
    ensures color == Sum(SampleColors(f, interp, x, y, cam, background, world, lights, samples))
  {
    ghost var cs := SampleColors(f, interp, x, y, cam, background, world, lights, samples);
    color := BLACK;
    for i := 0 to cam.samplesPerPixel
      invariant color == Sum(cs[..i])
    {
      var d := samples[i];
      var u := FDiv(f, x as real + d.du, (cam.width - 1) as real);
      var v := FDiv(f, y as real + d.dv, (cam.height - 1) as real);
      var r := GetRay(cam, u, v, d.disk, d.time);
      var c := RayColor(f, interp, r, background, world, lights, cam.maxDepth, d.bounces);
      assert c == SampleColor(f, interp, x, y, cam, background, world, lights, d);
      assert c == cs[i];
      assert cs[..i + 1][..i] == cs[..i];
      assert Sum(cs[..i + 1]) == Add(Sum(cs[..i]), c);
      color := Add(color, c);
    }
    assert cs[..cam.samplesPerPixel] == cs;
  }

  /** When every sample sees the same colour `c`, the pixel sum is `n c`: `write_color`'s
      division by the sample count recovers `c`. */
  lemma {:induction false} UniformSamples(cs: seq<Vec3>, c: Vec3)
    requires forall i | 0 <= i < |cs| :: cs[i] == c
    ensures Sum(cs) == Scale(c, |cs| as real)
  {
    if |cs| > 0 {
      var k := (|cs| - 1) as real;
      UniformSamples(cs[..|cs| - 1], c);
      assert Add(Scale(c, k), c) == Scale(c, k + 1.0) by {
        assert c.x * k + c.x == c.x * (k + 1.0);
        assert c.y * k + c.y == c.y * (k + 1.0);
        assert c.z * k + c.z == c.z * (k + 1.0);
      }
    }
  }
}
