/** `Dielectric` (src/rt/materials/dielectric.rs): glass-like material that reflects or
    refracts, choosing by Snell's law and Schlick's reflectance against a random draw. */
module Dielectrics {
  import opened Floats
  import opened Vectors
  import opened Rays
  import opened Sampling
  import opened Materials
  import opened HitRecords
  import opened ScatterRecords

  /** `Dielectric::new(ior)`. */
  function New(ior: real): (m: Material)
    ensures m.Dielectric? && m.ior == ior
  {
    Dielectric(ior)
  }

  /** `1 / ior` when entering through the front face, `ior` when leaving. */
  function RefractionRatio(f: FloatOps, ior: real, frontFace: bool): (ratio: real)
    ensures frontFace && ior != 0.0 ==> ratio * ior == 1.0
    ensures !frontFace ==> ratio == ior
  {
    if frontFace then FDiv(f, 1.0, ior) else ior
  }

  /** `(1 - cosine)^5`, the exact fifth power `powi(5)` stands for. */
  function Pow5(x: real): (p: real)
    ensures 0.0 <= x <= 1.0 ==> 0.0 <= p <= 1.0
  {
    Pow5Bounds(x);
    x * x * x * x * x
  }

  lemma Pow5Bounds(x: real)
    ensures 0.0 <= x <= 1.0 ==> 0.0 <= x * x * x * x * x <= 1.0
  {
    if 0.0 <= x <= 1.0 {
      var x2 := x * x;
      UnitProduct(x, x);
      var x3 := x2 * x;
      UnitProduct(x2, x);
      var x4 := x3 * x;
      UnitProduct(x3, x);
      UnitProduct(x4, x);
    }
  }

  lemma UnitProduct(a: real, b: real)
    requires 0.0 <= a <= 1.0 && 0.0 <= b <= 1.0
    ensures 0.0 <= a * b <= 1.0
  {
    MulLeMono(a, 1.0, b);
    assert a * b <= 1.0 * b;
    assert 1.0 * b == b;
    assert a * b <= b;
    MulLeMono(0.0, a, b);
  }

  /** Schlick's `r0 = ((1 - ref_idx) / (1 + ref_idx))²`: at most 1 for a non-negative
      index. */
  function R0(f: FloatOps, refIdx: real): (r0: real)
    ensures 0.0 <= refIdx ==> 0.0 <= r0 <= 1.0
  {
    var q := FDiv(f, 1.0 - refIdx, 1.0 + refIdx);
    RatioBound(q, refIdx);
    q * q
  }

  /** `reflectance(cosine, ref_idx)`: Schlick's approximation `r0 + (1 - r0)(1 - cosine)^5`. */
  function Reflectance(f: FloatOps, cosine: real, refIdx: real): real {
    Schlick(R0(f, refIdx), cosine)
  }

  function Schlick(r0: real, cosine: real): real {
    r0 + (1.0 - r0) * Pow5(1.0 - cosine)
  }

  /** `min(dot(-unit_direction, normal), 1)`. */
  function CosTheta(unitDirection: Vec3, normal: Vec3): (c: real)
    ensures c <= 1.0
  {
    Min(Dot(Neg(unitDirection), normal), 1.0)
  }

  /** Total internal reflection: `ratio * sin_theta > 1`, with `sin_theta = sqrt(1 - cos²)`. */
  predicate CannotRefract(f: FloatOps, ratio: real, cosTheta: real) {
    ratio * f.sqrt(1.0 - cosTheta * cosTheta) > 1.0
  }

  /** Whether `scatter` reflects: forced under total internal reflection, otherwise when
      the reflectance exceeds the draw. */
  predicate Reflects(f: FloatOps, ratio: real, cosTheta: real, draw: Unit) {
    CannotRefract(f, ratio, cosTheta) || Reflectance(f, cosTheta, ratio) > draw
  }

  /** `scatter(r_in, rec)` with the draw `draw` compared against the reflectance: always a
      specular record with white attenuation and a ray from the hit point at the incoming
      time, reflected or refracted as `Reflects` decides. */
  function Scatter(f: FloatOps, m: Material, rIn: Ray, rec: HitRecord, draw: Unit): (res: Option<ScatterRecord>)
    requires m.Dielectric?
    ensures res.Some? && res.value.Specular?
    ensures res.value.attenuation == WHITE
    ensures res.value.ray.origin == rec.p && res.value.ray.time == rIn.time
    ensures var ratio := RefractionRatio(f, m.ior, rec.frontFace);
            var u := UnitVector(f, rIn.direction);
            var c := CosTheta(u, rec.normal);
            && (Reflects(f, ratio, c, draw) ==> res.value.ray.direction == Reflect(u, rec.normal))
            && (!Reflects(f, ratio, c, draw) ==> res.value.ray.direction == Refract(f, u, rec.normal, ratio))
  {
    var ratio := RefractionRatio(f, m.ior, rec.frontFace);
    var unitDirection := UnitVector(f, rIn.direction);
    var cosTheta := CosTheta(unitDirection, rec.normal);
    var direction :=
      if CannotRefract(f, ratio, cosTheta) || Reflectance(f, cosTheta, ratio) > draw
      then Reflect(unitDirection, rec.normal)
      else Refract(f, unitDirection, rec.normal, ratio);
    Some(Specular(WHITE, Ray(rec.p, direction, rIn.time)))
  }

  // ---------------------------------------------------------------- properties

  /** Under total internal reflection every draw gives the same, reflected, ray. */
  lemma TotalInternalReflection(f: FloatOps, m: Material, rIn: Ray, rec: HitRecord, d1: Unit, d2: Unit)
    requires m.Dielectric?
    requires CannotRefract(f, RefractionRatio(f, m.ior, rec.frontFace),
                           CosTheta(UnitVector(f, rIn.direction), rec.normal))
    ensures Scatter(f, m, rIn, rec, d1) == Scatter(f, m, rIn, rec, d2)
    ensures Scatter(f, m, rIn, rec, d1).value.ray.direction
              == Reflect(UnitVector(f, rIn.direction), rec.normal)
  {
  }

  /** A refracted ray leaves on the far side of a unit normal (its component along the
      normal is never positive) whenever `dot(-unit_direction, normal) <= 1`. */
  lemma RefractedCrossesSurface(f: FloatOps, m: Material, rIn: Ray, rec: HitRecord, draw: Unit)
    requires m.Dielectric? && SqrtLaw(f) && Dot(rec.normal, rec.normal) == 1.0
    requires var u := UnitVector(f, rIn.direction);
             && Dot(Neg(u), rec.normal) <= 1.0
             && !Reflects(f, RefractionRatio(f, m.ior, rec.frontFace), CosTheta(u, rec.normal), draw)
    ensures Dot(Scatter(f, m, rIn, rec, draw).value.ray.direction, rec.normal) <= 0.0
  {
    RefractAlongNormal(f, UnitVector(f, rIn.direction), rec.normal, RefractionRatio(f, m.ior, rec.frontFace));
  }

  /** A reflected ray leaves on the normal's side when it arrived against a unit normal. */
  lemma ReflectedStaysOutside(f: FloatOps, m: Material, rIn: Ray, rec: HitRecord, draw: Unit)
    requires m.Dielectric? && Dot(rec.normal, rec.normal) == 1.0
    requires var u := UnitVector(f, rIn.direction);
             && Dot(u, rec.normal) <= 0.0
             && Reflects(f, RefractionRatio(f, m.ior, rec.frontFace), CosTheta(u, rec.normal), draw)
    ensures 0.0 <= Dot(Scatter(f, m, rIn, rec, draw).value.ray.direction, rec.normal)
  {
    ReflectNegatesNormal(UnitVector(f, rIn.direction), rec.normal);
  }

  /** Head-on incidence reflects `r0`... */
  lemma ReflectanceHeadOn(f: FloatOps, refIdx: real)
    ensures Reflectance(f, 1.0, refIdx) == R0(f, refIdx)
  {
    SchlickEnds(R0(f, refIdx));
  }

  /** ... and grazing incidence reflects everything. */
  lemma ReflectanceGrazing(f: FloatOps, refIdx: real)
    ensures Reflectance(f, 0.0, refIdx) == 1.0
  {
    SchlickEnds(R0(f, refIdx));
  }

  lemma SchlickEnds(r0: real)
    ensures Schlick(r0, 1.0) == r0 && Schlick(r0, 0.0) == 1.0
  {
    var c := 1.0 - r0;
    var p0, p1 := Pow5(0.0), Pow5(1.0);
    assert p0 == 0.0 && p1 == 1.0;
    MulByConstant(c, p0, 0.0);
    MulByConstant(c, p1, 1.0);
    assert Schlick(r0, 1.0) == r0 + c * p0;
    assert Schlick(r0, 0.0) == r0 + c * p1;
  }

  lemma MulByConstant(a: real, p: real, k: real)
    requires p == k
    ensures a * p == a * k
  {
  }

  /** For a non-negative index and a cosine in [0, 1] the reflectance lies between `r0`
      and 1. */
  lemma {:induction false} ReflectanceBounds(f: FloatOps, cosine: real, refIdx: real)
    requires 0.0 <= cosine <= 1.0 && 0.0 <= refIdx
    ensures R0(f, refIdx) <= Reflectance(f, cosine, refIdx) <= 1.0
  {
    var r0 := R0(f, refIdx);
    var p := Pow5(1.0 - cosine);
    assert 0.0 <= p <= 1.0;
    SchlickBetween(r0, p);
    assert Reflectance(f, cosine, refIdx) == r0 + (1.0 - r0) * p;
  }

  lemma SchlickBetween(r0: real, p: real)
    requires 0.0 <= p <= 1.0 && r0 <= 1.0
    ensures r0 <= r0 + (1.0 - r0) * p <= 1.0
  {
    MulLeMono(0.0, p, 1.0 - r0);
    MulLeMono(p, 1.0, 1.0 - r0);
  }

  /** `|(1 - r) / (1 + r)| <= 1` for `r >= 0`, so its square is at most 1. */
  lemma RatioBound(q: real, r: real)
    ensures 0.0 <= r && q * (1.0 + r) == 1.0 - r ==> 0.0 <= q * q <= 1.0
  {
    if 0.0 <= r && q * (1.0 + r) == 1.0 - r {
      if q > 1.0 {
        MulLtMono(1.0, q, 1.0 + r);
      } else if q < -1.0 {
        MulLtMono(q, -1.0, 1.0 + r);
      }
      assert -1.0 <= q <= 1.0;
      if q < 0.0 { UnitProduct(-q, -q); } else { UnitProduct(q, q); }
    }
  }
}
