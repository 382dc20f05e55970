/** The sampling densities of src/rt/pdfs: a cosine lobe around a direction
    (cosine_pdf.rs), a density aimed at a light rectangle (hittable_pdf.rs) and an even
    mixture of two densities (mixture_pdf.rs). The `Pdf` trait object becomes a datatype
    of these three variants; `value` and `generate` dispatch on it.

    Each `random_f64()` that `generate` consumes is read from a supplied stream of draws
    `rng`, starting at index `i`, in the order the program draws them. */
module Pdfs {
  import opened Floats
  import opened Vectors
  import opened Rays
  import opened Sampling
  import opened Onbs
  import XzRects

  /** The only object implementing `pdf_value`/`random` is the XZ rectangle, so a
      `HittablePdf` holds one. */
  datatype Pdf =
    | CosinePdf(uvw: Onb)
    | HittablePdf(hittable: XzRects.XzRect, o: Vec3)
    | MixturePdf(p0: Pdf, p1: Pdf)

  /** `CosinePdf::new(w)`: the basis built around `w`. */
  function NewCosine(f: FloatOps, w: Vec3): (p: Pdf)
    ensures p.CosinePdf? && p.uvw.w == UnitVector(f, w)
  {
    CosinePdf(BuildFromW(f, w))
  }

  /** `CosinePdf::value`: the cosine between the normalised direction and `w`, over PI,
      and 0 for directions at or below the surface. */
  function CosineValue(f: FloatOps, uvw: Onb, direction: Vec3): (v: real)
    ensures 0.0 <= v
    ensures v == 0.0 <==> Dot(UnitVector(f, direction), uvw.w) <= 0.0
    ensures 0.0 < v ==> v * PI == Dot(UnitVector(f, direction), uvw.w)
  {
    var cosine := Dot(UnitVector(f, direction), uvw.w);
    if cosine <= 0.0 then 0.0 else cosine / PI
  }

  /** `value(direction)` of any density. */
  function Value(f: FloatOps, p: Pdf, direction: Vec3): real
    decreases p
  {
    match p
    case CosinePdf(uvw) => CosineValue(f, uvw, direction)
    case HittablePdf(h, o) => XzRects.PdfValue(f, h, o, direction)
    case MixturePdf(p0, p1) => 0.5 * Value(f, p0, direction) + 0.5 * Value(f, p1, direction)
  }

  /** `generate()` of any density: the cosine lobe maps a cosine-weighted direction into
      its basis, the light density aims at a random point of the rectangle, and the
      mixture picks its first component when its own draw is below 0.5. */
  function Generate(f: FloatOps, p: Pdf, rng: nat -> Unit, i: nat): Vec3
    decreases p
  {
    match p
    case CosinePdf(uvw) => Local(uvw, RandomCosineDirection(f, rng(i), rng(i + 1)))
    case HittablePdf(h, o) => XzRects.Random(h, o, rng(i), rng(i + 1))
    case MixturePdf(p0, p1) =>
      if rng(i) < 0.5 then Generate(f, p0, rng, i + 1) else Generate(f, p1, rng, i + 1)
  }

  // ---------------------------------------------------------------- properties

  /** Normalising ignores a positive scale factor. */
  lemma {:induction false} UnitVectorScaleInvariant(f: FloatOps, d: Vec3, k: real)
    requires SqrtLaw(f) && 0.0 < k
    ensures UnitVector(f, Scale(d, k)) == UnitVector(f, d)
  {
    var s := Length(f, d);
    var sd := Scale(d, k);
    var x := LengthSquared(d);
    assert LengthSquared(sd) == k * k * x;
    LengthSquaredNonNeg(d);
    SqrtOfSquare(f, k, x);
    assert s == f.sqrt(x);
    assert Length(f, sd) == f.sqrt(k * k * x);
    assert Length(f, sd) == k * s;
    if s == 0.0 {
      assert LengthSquared(d) == s * s;
      ZeroLength(d);
      assert sd == d;
    } else {
      DivScaled(f, d, k, s);
    }
  }

  lemma DivScaled(f: FloatOps, d: Vec3, k: real, s: real)
    requires 0.0 < k && 0.0 < s
    ensures Div(f, Scale(d, k), k * s) == Div(f, d, s)
  {
    CancelScale(f, d.x, k, s);
    CancelScale(f, d.y, k, s);
    CancelScale(f, d.z, k, s);
  }

  lemma ZeroLength(d: Vec3)
    requires LengthSquared(d) == 0.0
    ensures d == Vec3(0.0, 0.0, 0.0)
  {
    assert d.x * d.x + d.y * d.y + d.z * d.z == 0.0;
    ZeroSumOfSquares(d.x, d.y, d.z);
  }

  lemma ZeroSumOfSquares(a: real, b: real, c: real)
    requires a * a + b * b + c * c == 0.0
    ensures a == 0.0 && b == 0.0 && c == 0.0
  {
    SquareNonNeg(a);
    SquareNonNeg(b);
    SquareNonNeg(c);
    MulZero(a, a);
    MulZero(b, b);
    MulZero(c, c);
  }

  lemma SquareNonNeg(a: real)
    ensures 0.0 <= a * a
  {
    if a < 0.0 { MulPos(-a, -a); } else if 0.0 < a { MulPos(a, a); }
  }

  lemma CancelScale(f: FloatOps, x: real, k: real, s: real)
    requires 0.0 < k && 0.0 < s
    ensures FDiv(f, x * k, k * s) == FDiv(f, x, s)
  {
    MulPos(k, s);
    assert FDiv(f, x * k, k * s) == (x * k) / (k * s);
  }

  /** The cosine density does not depend on the length of the direction. */
  lemma CosineValueScaleInvariant(f: FloatOps, uvw: Onb, direction: Vec3, k: real)
    requires SqrtLaw(f) && 0.0 < k
    ensures CosineValue(f, uvw, Scale(direction, k)) == CosineValue(f, uvw, direction)
  {
    UnitVectorScaleInvariant(f, direction, k);
  }

  /** A cosine sample drawn in an orthonormal basis (`build_from_w` of a non-zero vector)
      never points below the surface. */
  lemma {:induction false} CosineGenerateAbove(f: FloatOps, w: Vec3, rng: nat -> Unit, i: nat)
    requires SqrtLaw(f) && 0.0 < LengthSquared(w)
    ensures var p := NewCosine(f, w);
            0.0 <= Dot(Generate(f, p, rng, i), p.uvw.w)
  {
    var b := BuildFromW(f, w);
    BuildFromWOrthonormal(f, w);
    var a := RandomCosineDirection(f, rng(i), rng(i + 1));
    LocalAlongW(b, a);
    CosineDirectionUp(f, rng(i), rng(i + 1));
  }

  /** The mixture averages its components: symmetric in them, and equal to their common
      value when they agree. */
  lemma MixtureValue(f: FloatOps, p0: Pdf, p1: Pdf, direction: Vec3)
    ensures Value(f, MixturePdf(p0, p1), direction) == Value(f, MixturePdf(p1, p0), direction)
    ensures Value(f, p0, direction) == Value(f, p1, direction) ==>
              Value(f, MixturePdf(p0, p1), direction) == Value(f, p0, direction)
    ensures Min(Value(f, p0, direction), Value(f, p1, direction))
              <= Value(f, MixturePdf(p0, p1), direction)
              <= Max(Value(f, p0, direction), Value(f, p1, direction))
  {
  }

  /** The mixture's sample is its first component's when the draw is below 0.5 and its
      second's otherwise, each reading the draws after the mixture's own. */
  lemma MixtureGenerate(f: FloatOps, p0: Pdf, p1: Pdf, rng: nat -> Unit, i: nat)
    ensures rng(i) < 0.5 ==> Generate(f, MixturePdf(p0, p1), rng, i) == Generate(f, p0, rng, i + 1)
    ensures 0.5 <= rng(i) ==> Generate(f, MixturePdf(p0, p1), rng, i) == Generate(f, p1, rng, i + 1)
  {
  }

  /** The light density from `o` is zero exactly for directions whose ray misses the
      rectangle, and its sample is a direction from `o` to a point of the rectangle. */
  lemma HittablePdfAimsAtLight(f: FloatOps, rect: XzRects.XzRect, o: Vec3, direction: Vec3, rng: nat -> Unit, i: nat)
    requires rect.x0 <= rect.x1 && rect.z0 <= rect.z1
    ensures XzRects.Hit(f, rect, Ray(o, direction, 0.0), Fin(0.001), PosInf).None? ==>
              Value(f, HittablePdf(rect, o), direction) == 0.0
    ensures var target := Add(o, Generate(f, HittablePdf(rect, o), rng, i));
            target.y == rect.k && XzRects.OnRect(rect, target.x, target.z)
  {
    XzRects.PdfValueCases(f, rect, o, direction);
  }

  /** The densities whose value is provably non-negative: cosine lobes, light rectangles
      of positive area seen at a non-zero cosine, and mixtures of such. */
  ghost predicate Proper(f: FloatOps, p: Pdf, direction: Vec3)
    decreases p
  {
    match p
    case CosinePdf(_) => true
    case HittablePdf(rect, o) =>
      && rect.x0 < rect.x1 && rect.z0 < rect.z1
      && var h := XzRects.Hit(f, rect, Ray(o, direction, 0.0), Fin(0.001), PosInf);
         h.Some? ==> XzRects.Cosine(f, direction, h.value.normal) != 0.0
    case MixturePdf(p0, p1) => Proper(f, p0, direction) && Proper(f, p1, direction)
  }

  /** Every proper density is non-negative. */
  lemma {:induction false} ValueNonNegative(f: FloatOps, p: Pdf, direction: Vec3)
    requires Proper(f, p, direction)
    ensures 0.0 <= Value(f, p, direction)
    decreases p
  {
    match p
    case CosinePdf(uvw) =>
    case HittablePdf(rect, o) =>
      XzRects.PdfValueNonNegative(f, rect, o, direction);
    case MixturePdf(p0, p1) =>
      ValueNonNegative(f, p0, direction);
      ValueNonNegative(f, p1, direction);
  }
}
