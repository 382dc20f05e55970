/** Textures (src/rt/textures/): a colour as a function of the surface coordinates
    (u, v) and the hit point p. The four implementations of the `Texture` trait are the
    variants of one datatype; `Value` dispatches on them. */
module Textures {
  import opened Floats
  import opened Vectors
  import opened Noise

  /** `ImageTexture`: a decoded RGB or RGBA buffer, row after row. */
  datatype ImageTexture = ImageTexture(data: seq<Byte>, width: nat, height: nat,
                                       bytesPerPixel: nat, bytesPerScanline: nat)

  datatype Texture =
    | SolidColor(colorValue: Vec3)
    | Checker(odd: Texture, even: Texture)
    | NoiseTexture(noise: Perlin, scale: real)
    | Image(image: ImageTexture)

  // ---------------------------------------------------------------- `SolidColor`

  /** `SolidColor::new`. */
  function NewSolidColor(c: Vec3): (t: Texture)
    ensures t.SolidColor? && t.colorValue == c
  {
    SolidColor(c)
  }

  // ---------------------------------------------------------------- `CheckerTexture`

  /** `CheckerTexture::from_textures(even, odd)`. */
  function FromTextures(even: Texture, odd: Texture): (t: Texture)
    ensures t.Checker? && t.even == even && t.odd == odd
  {
    Checker(odd, even)
  }

  /** `CheckerTexture::from_colors(even, odd)`: each colour becomes a `SolidColor`
      in the same role. */
  function FromColors(even: Vec3, odd: Vec3): (t: Texture)
    ensures t.Checker? && t.even == SolidColor(even) && t.odd == SolidColor(odd)
    ensures Usable(t)
  {
    FromTextures(NewSolidColor(even), NewSolidColor(odd))
  }

  /** The sign test of the checker: the odd texture where the product of the three
      sines is negative. */
  predicate OddCell(f: FloatOps, p: Vec3) {
    f.sin(10.0 * p.x) * f.sin(10.0 * p.y) * f.sin(10.0 * p.z) < 0.0
  }

  // ---------------------------------------------------------------- `NoiseTexture`

  /** `NoiseTexture::new`: the generator comes from `Perlin::new`, here its result. */
  function NewNoiseTexture(noise: Perlin, scale: real): (t: Texture)
    requires Valid(noise)
    ensures t.NoiseTexture? && t.scale == scale && t.noise == noise
  {
    NoiseTexture(noise, scale)
  }

  /** `WHITE * 0.5 * (1 + s)`, the colour of `NoiseTexture::value` for the sine `s`. */
  function Grey(s: real): Vec3 {
    Scale(Scale(WHITE, 0.5), 1.0 + s)
  }

  // ---------------------------------------------------------------- `ImageTexture`

  /** `ImageTexture::new`: the scanline length is derived from the width. */
  function NewImage(data: seq<Byte>, width: nat, height: nat, bytesPerPixel: nat): (img: ImageTexture)
    ensures img.data == data && img.width == width && img.height == height
    ensures img.bytesPerPixel == bytesPerPixel
    ensures img.bytesPerScanline == width * bytesPerPixel
  {
    ImageTexture(data, width, height, bytesPerPixel, width * bytesPerPixel)
  }

  /** A buffer as `from_file` builds it: RGB or RGBA, exactly `width * height` pixels. */
  predicate WellFormed(img: ImageTexture) {
    1 <= img.width && 1 <= img.height && 3 <= img.bytesPerPixel
    && img.bytesPerScanline == img.width * img.bytesPerPixel
    && |img.data| == img.height * img.bytesPerScanline
  }

  function MinNat(a: nat, b: nat): (r: nat)
    ensures r <= a && r <= b && (r == a || r == b)
  {
    if a < b then a else b
  }

  /** The column of `u`: `(u * width) as usize`, capped at `width - 1`. */
  function Column(u: real, width: nat): (i: nat)
    requires 1 <= width
    ensures i < width
  {
    MinNat(AsUsize(Clamp(u, 0.0, 1.0) * width as real), width - 1)
  }

  /** The row of `v`: v is flipped, so that v = 1 is the top row of the image. */
  function Row(v: real, height: nat): (j: nat)
    requires 1 <= height
    ensures j < height
  {
    MinNat(AsUsize((1.0 - Clamp(v, 0.0, 1.0)) * height as real), height - 1)
  }

  /** The byte offset of the pixel at column `i` and row `j`. */
  function PixelIndex(img: ImageTexture, i: nat, j: nat): nat {
    j * img.bytesPerScanline + i * img.bytesPerPixel
  }

  /** `ImageTexture::value`. `None` stands for the panics of the source: `width - 1` or
      `height - 1` underflowing on an empty image, and a read past the buffer. */
  function ImageValue(img: ImageTexture, u: real, v: real): (c: Option<Vec3>)
    ensures c.Some? ==> 0.0 <= c.value.x <= 1.0 && 0.0 <= c.value.y <= 1.0 && 0.0 <= c.value.z <= 1.0
    ensures c.Some? ==> 1 <= img.width && 1 <= img.height &&
                        var index := PixelIndex(img, Column(u, img.width), Row(v, img.height));
                        && index + 2 < |img.data|
                        && c.value.x * 255.0 == img.data[index] as real
                        && c.value.y * 255.0 == img.data[index + 1] as real
                        && c.value.z * 255.0 == img.data[index + 2] as real
  {
    if img.width == 0 || img.height == 0 then None
    else
      var index := PixelIndex(img, Column(u, img.width), Row(v, img.height));
      if index + 2 < |img.data| then
        var colorScale := 1.0 / 255.0;
        Some(Vec3(colorScale * img.data[index] as real,
                  colorScale * img.data[index + 1] as real,
                  colorScale * img.data[index + 2] as real))
      else None
  }

  // ---------------------------------------------------------------- dispatch

  /** Every image inside `t` is well formed and every noise generator is built. */
  predicate Usable(t: Texture) {
    match t
    case SolidColor(_) => true
    case Checker(odd, even) => Usable(odd) && Usable(even)
    case NoiseTexture(noise, _) => Valid(noise)
    case Image(img) => WellFormed(img)
  }

  /** `Texture::value`. */
  function Value(f: FloatOps, interp: Interp, t: Texture, u: real, v: real, p: Vec3): (c: Vec3)
    requires Usable(t)
  {
    match t
    case SolidColor(colorValue) => colorValue
    case Checker(odd, even) =>
      if OddCell(f, p) then Value(f, interp, odd, u, v, p) else Value(f, interp, even, u, v, p)
    case NoiseTexture(noise, scale) => Grey(f.sin(scale * p.z + 10.0 * Turbulence(noise, interp, p, 7)))
    case Image(img) => ImageDefined(img, u, v); ImageValue(img, u, v).value
  }

  // ---------------------------------------------------------------- properties

  /** A well-formed image never reads past its buffer. */
  lemma {:induction false} ImageDefined(img: ImageTexture, u: real, v: real)
    requires WellFormed(img)
    ensures ImageValue(img, u, v).Some?
  {
    var i, j := Column(u, img.width), Row(v, img.height);
    IndexInBounds(img.width, img.height, img.bytesPerPixel, i, j);
  }

  /** The last byte read, `index + 2`, lies inside a `width * height * bpp` buffer. */
  lemma {:induction false} IndexInBounds(w: nat, h: nat, bpp: nat, i: nat, j: nat)
    requires i < w && j < h && 3 <= bpp
    ensures j * (w * bpp) + i * bpp + 2 < h * (w * bpp)
  {
    var row := w * bpp;
    assert i * bpp + 2 < row by {
      MulLeNat(i + 1, w, bpp);
      assert (i + 1) * bpp == i * bpp + bpp;
    }
    MulLeNat(j + 1, h, row);
    assert (j + 1) * row == j * row + row;
  }

  lemma MulLeNat(a: nat, b: nat, k: nat)
    requires a <= b
    ensures a * k <= b * k
  {
  }

  /** A solid colour ignores (u, v) and the point. */
  lemma SolidColorConstant(f: FloatOps, interp: Interp, c: Vec3, u: real, v: real, p: Vec3)
    ensures Value(f, interp, SolidColor(c), u, v, p) == c
  {
  }

  /** A checker of two colours always yields one of them, the odd one exactly on the
      cells where the sine product is negative. */
  lemma CheckerOfColors(f: FloatOps, interp: Interp, even: Vec3, odd: Vec3, u: real, v: real, p: Vec3)
    ensures Value(f, interp, FromColors(even, odd), u, v, p) == if OddCell(f, p) then odd else even
  {
  }

  /** The chosen texture of a checker is evaluated at the same u, v and p. */
  lemma CheckerDelegates(f: FloatOps, interp: Interp, t: Texture, u: real, v: real, p: Vec3)
    requires t.Checker? && Usable(t)
    ensures Value(f, interp, t, u, v, p)
         == Value(f, interp, if OddCell(f, p) then t.odd else t.even, u, v, p)
  {
  }

  /** The noise texture is grey and, when sine is bounded, each channel lies in [0, 1]. */
  lemma {:induction false} NoiseGrey(f: FloatOps, interp: Interp, t: Texture, u: real, v: real, p: Vec3)
    requires t.NoiseTexture? && Usable(t)
    requires SinCosLaw(f)
    ensures var c := Value(f, interp, t, u, v, p); c.x == c.y == c.z && 0.0 <= c.x <= 1.0
  {
    var s := f.sin(t.scale * p.z + 10.0 * Turbulence(t.noise, interp, p, 7));
    GreyLevels(s);
  }

  /** The noise texture does not look at (u, v). */
  lemma NoiseIgnoresUV(f: FloatOps, interp: Interp, t: Texture, u: real, v: real, u': real, v': real, p: Vec3)
    requires t.NoiseTexture? && Usable(t)
    ensures Value(f, interp, t, u, v, p) == Value(f, interp, t, u', v', p)
  {
  }

  /** `WHITE * 0.5 * (1 + s)` is the grey level `(1 + s) / 2`. */
  lemma {:induction false} GreyLevels(s: real)
    requires -1.0 <= s <= 1.0
    ensures Grey(s) == Vec3((1.0 + s) / 2.0, (1.0 + s) / 2.0, (1.0 + s) / 2.0)
    ensures 0.0 <= (1.0 + s) / 2.0 <= 1.0
  {
  }

  /** u = 1 selects the last column. */
  lemma ColumnOfOne(width: nat)
    requires 1 <= width
    ensures Column(1.0, width) == width - 1
  {
    assert AsUsize(width as real) == width;
  }

  /** v = 1 selects the top row (row 0) and v = 0 the bottom row. */
  lemma RowFlipped(height: nat)
    requires 1 <= height
    ensures Row(1.0, height) == 0
    ensures Row(0.0, height) == height - 1
  {
    assert AsUsize(height as real) == height;
  }

  /** The image texture ignores the point: its value depends on u and v only. */
  lemma ImageIgnoresPoint(f: FloatOps, interp: Interp, img: ImageTexture, u: real, v: real, p: Vec3, q: Vec3)
    requires WellFormed(img)
    ensures Value(f, interp, Image(img), u, v, p) == Value(f, interp, Image(img), u, v, q)
  {
  }
}
