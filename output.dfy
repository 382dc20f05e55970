/** The pixel output of src/main.rs: `write_color` turns an accumulated sample sum into
    an 8-bit RGB pixel (average, clamp to [0, 1], gamma 2 by a square root, scale by
    255.999, truncate), and `iterate_pixel` renders the image row flipped upside down
    into its pixel. */
module Output {
  import opened Floats
  import opened Vectors
  import opened Noise
  import opened Hittables
  import opened Cameras
  import opened Integrator
  import XzRects

  /** One `Rgb<u8>` pixel of the image buffer, written in place. */
  class Pixel {
    var r: Byte
    var g: Byte
    var b: Byte

    constructor ()
      ensures r == 0 && g == 0 && b == 0
    {
      r, g, b := 0, 0, 0;
    }
  }

  /** One channel of `color * (1.0 / samples_per_pixel as f64)`: the average of the
      samples summed into `c`. */
  function Average(f: FloatOps, c: real, samplesPerPixel: nat): (avg: real)
    ensures 0 < samplesPerPixel ==> avg * samplesPerPixel as real == c
  {
    var q := FDiv(f, 1.0, samplesPerPixel as real);
    assert 0 < samplesPerPixel ==> (c * q) * samplesPerPixel as real == c * (q * samplesPerPixel as real);
    c * q
  }

  /** One channel of `write_color`: the sum `c` of `samplesPerPixel` samples is averaged,
      clamped to [0, 1], gamma-corrected by `sqrt`, scaled by 255.999 and cast to `u8`. */
  function Channel(f: FloatOps, c: real, samplesPerPixel: nat): Byte {
    AsU8(f.sqrt(Clamp(Average(f, c, samplesPerPixel), 0.0, 1.0)) * 255.999)
  }

  /** Under the square-root law the byte is the integer part of 255.999 times the value
      in [0, 1] whose square is the clamped average. */
  lemma ChannelBand(f: FloatOps, c: real, samplesPerPixel: nat)
    requires SqrtLaw(f)
    ensures var avg := Clamp(Average(f, c, samplesPerPixel), 0.0, 1.0);
            var s := f.sqrt(avg);
            var byte := Channel(f, c, samplesPerPixel);
            && 0.0 <= s <= 1.0 && s * s == avg
            && byte as real <= s * 255.999 < byte as real + 1.0
  {
    var avg := Clamp(Average(f, c, samplesPerPixel), 0.0, 1.0);
    SqrtAtMostOne(f, avg);
    var s := f.sqrt(avg);
    MulLeMono(s, 1.0, 255.999);
  }

  /** The square root of a value in [0, 1] lies in [0, 1]. */
  lemma SqrtAtMostOne(f: FloatOps, x: real)
    requires SqrtLaw(f) && 0.0 <= x <= 1.0
    ensures 0.0 <= f.sqrt(x) <= 1.0
  {
    var s := f.sqrt(x);
    if s > 1.0 {
      MulLtMono(1.0, s, s);
      assert false;
    }
  }

  /** `write_color(pixel, color, samples_per_pixel)`: the pixel, and nothing else, is
      overwritten with the three quantised channels. The average is taken channel by
      channel, as the scaling of the colour by `1 / samples_per_pixel` does. */
  method WriteColor(pixel: Pixel, f: FloatOps, color: Vec3, samplesPerPixel: nat)
    modifies pixel
    ensures pixel.r == Channel(f, color.x, samplesPerPixel)
    ensures pixel.g == Channel(f, color.y, samplesPerPixel)
    ensures pixel.b == Channel(f, color.z, samplesPerPixel)
  {
    var scaled := Vec3(Average(f, color.x, samplesPerPixel), Average(f, color.y, samplesPerPixel),
                       Average(f, color.z, samplesPerPixel));
    var corrected := Scale(SqrtVec(f, ClampVec(scaled, 0.0, 1.0)), 255.999);
    pixel.r := AsU8(corrected.x);
    pixel.g := AsU8(corrected.y);
    pixel.b := AsU8(corrected.z);
  }

  /** `iterate_pixel`'s row flip `height - 1 - y`: a row of the image for every row of the
      buffer, the last one for the first. */
  function FlipRow(height: nat, y: nat): (row: nat)
    requires y < height
    ensures row < height && row + y == height - 1
  {
    height - 1 - y
  }

  /** Flipping twice gives back the buffer row, so the flip is a bijection on the rows. */
  lemma FlipRowInvolution(height: nat, y: nat)
    requires y < height
    ensures FlipRow(height, FlipRow(height, y)) == y
  {
  }

  /** Distinct buffer rows render distinct image rows. */
  lemma FlipRowInjective(height: nat, y1: nat, y2: nat)
    requires y1 < height && y2 < height
    ensures FlipRow(height, y1) == FlipRow(height, y2) <==> y1 == y2
  {
  }

  /** `iterate_pixel((x, y, pixel), camera, background, world, lights)`: renders image row
      `height - 1 - y` at column `x` and writes the quantised colour into `pixel`. */
  method IteratePixel(x: nat, y: nat, pixel: Pixel, f: FloatOps, interp: Interp, cam: Camera,
                      background: Vec3, world: Shape, lights: XzRects.XzRect, samples: seq<SampleDraws>)
    requires WorldUsable(world) && 1 <= cam.width && y < cam.height
    requires |samples| == cam.samplesPerPixel
    modifies pixel
    ensures var color := Sum(SampleColors(f, interp, x, FlipRow(cam.height, y), cam, background, world, lights, samples));
            && pixel.r == Channel(f, color.x, cam.samplesPerPixel)
            && pixel.g == Channel(f, color.y, cam.samplesPerPixel)
            && pixel.b == Channel(f, color.z, cam.samplesPerPixel)
  {
    var row := FlipRow(cam.height, y);
    var color := RenderPixel(f, interp, x, row, cam, background, world, lights, samples);
    WriteColor(pixel, f, color, cam.samplesPerPixel);
  }

  // ---------------------------------------------------------------- properties

  /** A channel that gathered no light is written as 0. */
  lemma DarkChannel(f: FloatOps, samplesPerPixel: nat)
    requires SqrtLaw(f)
    ensures Channel(f, 0.0, samplesPerPixel) == 0
  {
    SqrtZero(f);
    assert Average(f, 0.0, samplesPerPixel) == 0.0 * FDiv(f, 1.0, samplesPerPixel as real) == 0.0;
  }

  /** A channel whose every sample saw 1 (sum `n`) is written as 255. */
  lemma FullChannel(f: FloatOps, samplesPerPixel: nat)
    requires SqrtLaw(f) && 0 < samplesPerPixel
    ensures Channel(f, samplesPerPixel as real, samplesPerPixel) == 255
  {
    SqrtOne(f);
    var n := samplesPerPixel as real;
    var a := Average(f, n, samplesPerPixel);
    AverageMonotone(f, n, n, samplesPerPixel);
    assert a * n == 1.0 * n;
    if a < 1.0 {
      MulLtMono(a, 1.0, n);
    } else if a > 1.0 {
      MulLtMono(1.0, a, n);
    }
  }

  /** The average is monotone in the sum. */
  lemma AverageMonotone(f: FloatOps, c1: real, c2: real, samplesPerPixel: nat)
    requires 0 < samplesPerPixel && c1 <= c2
    ensures Average(f, c1, samplesPerPixel) <= Average(f, c2, samplesPerPixel)
  {
    var a1, a2 := Average(f, c1, samplesPerPixel), Average(f, c2, samplesPerPixel);
    if a2 < a1 {
      MulLtMono(a2, a1, samplesPerPixel as real);
    }
  }

  /** More light never gives a darker byte: the channel is monotone in the sum. */
  lemma {:induction false} ChannelMonotone(f: FloatOps, c1: real, c2: real, samplesPerPixel: nat)
    requires SqrtLaw(f) && 0 < samplesPerPixel && c1 <= c2
    ensures Channel(f, c1, samplesPerPixel) <= Channel(f, c2, samplesPerPixel)
  {
    AverageMonotone(f, c1, c2, samplesPerPixel);
    var a1 := Clamp(Average(f, c1, samplesPerPixel), 0.0, 1.0);
    var a2 := Clamp(Average(f, c2, samplesPerPixel), 0.0, 1.0);
    assert a1 <= a2;
    SqrtMonotone(f, a1, a2);
    MulLeMono(f.sqrt(a1), f.sqrt(a2), 255.999);
    AsU8Monotone(f.sqrt(a1) * 255.999, f.sqrt(a2) * 255.999);
  }

  /** The square root is monotone on non-negative values. */
  lemma SqrtMonotone(f: FloatOps, x: real, y: real)
    requires SqrtLaw(f) && 0.0 <= x <= y
    ensures f.sqrt(x) <= f.sqrt(y)
  {
    SquareMonotone(f.sqrt(x), f.sqrt(y));
  }

  /** Among non-negative reals, a smaller square has a smaller root. */
  lemma SquareMonotone(a: real, b: real)
    requires 0.0 <= a && 0.0 <= b && a * a <= b * b
    ensures a <= b
  {
    if b < a {
      MulLtMono(b, a, a);
      MulLeMono(b, a, b);
      calc {
        b * b;
      <= a * b;
      == b * a;
      <  a * a;
      }
    }
  }

  /** The `u8` cast is monotone. */
  lemma AsU8Monotone(x: real, y: real)
    requires x <= y
    ensures AsU8(x) <= AsU8(y)
  {
    if 0.0 < x < 255.0 && 0.0 < y < 255.0 {
      assert x.Floor <= y.Floor;
    }
  }
}
