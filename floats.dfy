/** Numeric substrate shared by the whole model.

    `f64` is modelled as `real`. The operations whose values real arithmetic cannot
    compute (square root, the trigonometric functions, the logarithm) and the value of a
    division by zero (IEEE infinity or NaN) are left uninterpreted: they are the fields of
    a `FloatOps` record that callers pass in, and lemmas assume only the few laws they need.
    Interval bounds that the program sets to `f64::INFINITY` / `f64::NEG_INFINITY` are
    extended reals (`Ext`). */
module Floats {

  datatype Option<T> = None | Some(value: T)

  /** The uninterpreted operations of the floating-point library. */
  datatype FloatOps = FloatOps(
    sqrt: real -> real,
    sin: real -> real,
    cos: real -> real,
    tan: real -> real,
    ln: real -> real,
    acos: real -> real,
    atan2: (real, real) -> real,
    divZero: real -> real)

  /** `sqrt` is the non-negative square root on non-negative arguments. */
  ghost predicate SqrtLaw(f: FloatOps) {
    forall x: real :: 0.0 <= x ==> 0.0 <= f.sqrt(x) && f.sqrt(x) * f.sqrt(x) == x
  }

  /** `sin` and `cos` stay in [-1, 1]. */
  ghost predicate SinCosLaw(f: FloatOps) {
    (forall x: real :: -1.0 <= f.sin(x) <= 1.0) && (forall x: real :: -1.0 <= f.cos(x) <= 1.0)
  }

  /** `ln` is non-positive on (0, 1]. */
  ghost predicate LnLaw(f: FloatOps) {
    forall x: real :: 0.0 < x <= 1.0 ==> f.ln(x) <= 0.0
  }

  /** `x / y` on `f64`: real division, except that the value of a division by zero
      (an infinity or NaN) is left unspecified. */
  function FDiv(f: FloatOps, x: real, y: real): (q: real)
    ensures y != 0.0 ==> q * y == x
  {
    if y != 0.0 then x / y else f.divZero(x)
  }

  /** A part over the whole lies in [0, 1]. */
  lemma UnitFraction(f: FloatOps, a: real, b: real)
    requires 0.0 <= a <= b && 0.0 < b
    ensures 0.0 <= FDiv(f, a, b) <= 1.0
  {
  }

  lemma MulZero(x: real, y: real)
    requires x * y == 0.0
    ensures x == 0.0 || y == 0.0
  {
    if x != 0.0 {
      assert y == (x * y) / x;
    }
  }

  lemma MulPos(x: real, y: real)
    requires 0.0 < x && 0.0 < y
    ensures 0.0 < x * y
  {
  }

  lemma MulLeMono(x: real, y: real, k: real)
    requires x <= y && 0.0 <= k
    ensures x * k <= y * k
  {
    assert y * k - x * k == (y - x) * k;
    if 0.0 < k && x < y { MulPos(y - x, k); }
  }

  lemma MulLtMono(x: real, y: real, k: real)
    requires x < y && 0.0 < k
    ensures x * k < y * k
  {
    assert y * k - x * k == (y - x) * k;
    MulPos(y - x, k);
  }

  /** Two non-negative reals with equal squares are equal. */
  lemma SquareUnique(a: real, b: real)
    requires 0.0 <= a && 0.0 <= b && a * a == b * b
    ensures a == b
  {
    assert (a - b) * (a + b) == a * a - b * b;
    MulZero(a - b, a + b);
  }

  lemma {:induction false} SqrtOfSquare(f: FloatOps, k: real, x: real)
    requires SqrtLaw(f)
    requires 0.0 <= k && 0.0 <= x
    ensures f.sqrt(k * k * x) == k * f.sqrt(x)
  {
    var s := f.sqrt(x);
    assert 0.0 <= s && s * s == x;
    var a, b := f.sqrt(k * k * x), k * s;
    assert 0.0 <= k * k * x;
    assert 0.0 <= a && a * a == k * k * x;
    assert 0.0 <= b;
    assert b * b == k * k * (s * s);
    SquareUnique(a, b);
  }

  lemma SqrtPositive(f: FloatOps, x: real)
    requires SqrtLaw(f)
    requires 0.0 < x
    ensures 0.0 < f.sqrt(x)
  {
    assert f.sqrt(x) * f.sqrt(x) == x;
  }

  lemma SqrtOne(f: FloatOps)
    requires SqrtLaw(f)
    ensures f.sqrt(1.0) == 1.0
  {
    var s := f.sqrt(1.0);
    assert 0.0 <= s && s * s == 1.0;
    SquareUnique(s, 1.0);
  }

  lemma SqrtZero(f: FloatOps)
    requires SqrtLaw(f)
    ensures f.sqrt(0.0) == 0.0
  {
    var s := f.sqrt(0.0);
    assert 0.0 <= s && s * s == 0.0;
    MulZero(s, s);
  }

  /** Extended reals: the bounds `t_min`/`t_max` of a hit query. */
  datatype Ext = NegInf | Fin(v: real) | PosInf

  /** Strict order on extended reals. */
  predicate Lt(a: Ext, b: Ext) {
    match (a, b)
    case (NegInf, NegInf) => false
    case (NegInf, _) => true
    case (Fin(x), Fin(y)) => x < y
    case (Fin(_), PosInf) => true
    case (_, _) => false
  }

  predicate Le(a: Ext, b: Ext) { !Lt(b, a) }

  /** `t` lies in the closed interval [lo, hi]. */
  predicate InRange(t: real, lo: Ext, hi: Ext) {
    Le(lo, Fin(t)) && Le(Fin(t), hi)
  }

  /** `if t > e { t } else { e }` for a finite `t` and an extended `e`. */
  function RaiseTo(t: real, e: Ext): (r: Ext)
    ensures Le(e, r) && Le(Fin(t), r)
    ensures r == e || r == Fin(t)
  {
    if Lt(e, Fin(t)) then Fin(t) else e
  }

  /** `if t < e { t } else { e }` for a finite `t` and an extended `e`. */
  function LowerTo(t: real, e: Ext): (r: Ext)
    ensures Le(r, e) && Le(r, Fin(t))
    ensures r == e || r == Fin(t)
  {
    if Lt(Fin(t), e) then Fin(t) else e
  }

  lemma LeTransitive(a: Ext, b: Ext, c: Ext)
    requires Le(a, b) && Le(b, c)
    ensures Le(a, c)
  {
  }

  const PI: real := 3.1415926535897932385

  /** `degrees_to_radians` (src/rt/mod.rs). */
  function DegreesToRadians(degrees: real): (r: real)
    ensures degrees == 180.0 ==> r == PI
  {
    degrees * PI / 180.0
  }

  type Byte = x: int | 0 <= x < 256

  /** `x as usize` for a float: truncation toward zero, negative values saturate to 0.
      (Saturation above `usize::MAX` and NaN are not modelled.) */
  function AsUsize(x: real): (n: nat)
    ensures 0.0 <= x ==> n as real <= x < n as real + 1.0
    ensures x < 1.0 ==> n == 0
  {
    if x < 0.0 then 0 else x.Floor
  }

  const I32_MIN: int := -0x8000_0000
  const I32_MAX: int := 0x7FFF_FFFF

  /** `x as i32` for a float: truncation toward zero, saturating at the bounds of `i32`.
      (NaN is not modelled.) */
  function AsI32(x: real): (n: int)
    ensures I32_MIN <= n <= I32_MAX
    ensures 0.0 <= x < I32_MAX as real ==> n as real <= x < n as real + 1.0
    ensures I32_MIN as real < x < 0.0 ==> n as real - 1.0 < x <= n as real
    ensures x <= I32_MIN as real ==> n == I32_MIN
    ensures I32_MAX as real <= x ==> n == I32_MAX
  {
    if x <= I32_MIN as real then I32_MIN
    else if x >= I32_MAX as real then I32_MAX
    else if x >= 0.0 then x.Floor
    else -((-x).Floor)
  }

  /** `x as u8` for a float: truncation toward zero, saturating at 0 and 255.
      (NaN is not modelled.) */
  function AsU8(x: real): (b: Byte)
    ensures 0.0 <= x < 256.0 ==> b as real <= x < b as real + 1.0
    ensures x <= 0.0 ==> b == 0
    ensures 255.0 <= x ==> b == 255
  {
    if x <= 0.0 then 0 else if x >= 255.0 then 255 else x.Floor
  }

  /** `f64::clamp(x, lo, hi)`. */
  function Clamp(x: real, lo: real, hi: real): (r: real)
    requires lo <= hi
    ensures lo <= r <= hi
    ensures lo <= x <= hi ==> r == x
  {
    if x < lo then lo else if x > hi then hi else x
  }

  function Min(a: real, b: real): (r: real)
    ensures r <= a && r <= b && (r == a || r == b)
  {
    if a < b then a else b
  }

  function Max(a: real, b: real): (r: real)
    ensures a <= r && b <= r && (r == a || r == b)
  {
    if a > b then a else b
  }

  function Abs(x: real): (r: real)
    ensures 0.0 <= r && (r == x || r == -x)
  {
    if x < 0.0 then -x else x
  }
}
