/** `Vec3` (src/rt/vec3.rs): the vector type of the renderer, also used for points
    and colours (`Color` in src/rt/color.rs is the same type). */
module Vectors {
  import opened Floats

  datatype Vec3 = Vec3(x: real, y: real, z: real)

  const ZERO: Vec3 := Vec3(0.0, 0.0, 0.0)
  const UNIT_X: Vec3 := Vec3(1.0, 0.0, 0.0)
  const UNIT_Y: Vec3 := Vec3(0.0, 1.0, 0.0)
  const UNIT_Z: Vec3 := Vec3(0.0, 0.0, 1.0)

  /** The two constant colours of src/rt/color.rs. */
  const WHITE: Vec3 := Vec3(1.0, 1.0, 1.0)
  const BLACK: Vec3 := Vec3(0.0, 0.0, 0.0)

  /** `get`: index 0 is x, 1 is y, and every other index (negative ones too) is z. */
  function Get(v: Vec3, i: int): (c: real)
    ensures i == 0 ==> c == v.x
    ensures i == 1 ==> c == v.y
    ensures i != 0 && i != 1 ==> c == v.z
  {
    if i == 0 then v.x else if i == 1 then v.y else v.z
  }

  /** `set`: writes one component; every index other than 0 and 1 writes z.
      The vector is a `Copy` value, so the write is the value after the update. */
  function Set(v: Vec3, i: int, value: real): (w: Vec3)
    ensures Get(w, i) == value
    ensures forall j :: SameSlot(i, j) || Get(w, j) == Get(v, j)
  {
    if i == 0 then v.(x := value) else if i == 1 then v.(y := value) else v.(z := value)
  }

  /** Indices `i` and `j` name the same component. */
  predicate SameSlot(i: int, j: int) {
    i == j || (i != 0 && i != 1 && j != 0 && j != 1)
  }

  predicate NearZero(v: Vec3) {
    Abs(v.x) < 0.00000001 && Abs(v.y) < 0.00000001 && Abs(v.z) < 0.00000001
  }

  function Dot(u: Vec3, v: Vec3): real {
    u.x * v.x + u.y * v.y + u.z * v.z
  }

  function LengthSquared(v: Vec3): (r: real)
    ensures r == Dot(v, v)
  {
    v.x * v.x + v.y * v.y + v.z * v.z
  }

  /** `length_squared` is never negative. */
  lemma LengthSquaredNonNeg(v: Vec3)
    ensures 0.0 <= LengthSquared(v)
  {
  }

  function Length(f: FloatOps, v: Vec3): real {
    f.sqrt(LengthSquared(v))
  }

  /** `clamp`: each component clamped to [min, max] (`f64::clamp` panics when
      min > max, hence the precondition). */
  function ClampVec(v: Vec3, min: real, max: real): (w: Vec3)
    requires min <= max
    ensures min <= w.x <= max && min <= w.y <= max && min <= w.z <= max
    ensures min <= v.x <= max ==> w.x == v.x
    ensures min <= v.y <= max ==> w.y == v.y
    ensures min <= v.z <= max ==> w.z == v.z
  {
    Vec3(Clamp(v.x, min, max), Clamp(v.y, min, max), Clamp(v.z, min, max))
  }

  /** `sqrt`: the component-wise square root; under the square-root law each non-negative
      component is recovered by squaring. */
  function SqrtVec(f: FloatOps, v: Vec3): (w: Vec3)
    ensures SqrtLaw(f) && 0.0 <= v.x ==> 0.0 <= w.x && w.x * w.x == v.x
    ensures SqrtLaw(f) && 0.0 <= v.y ==> 0.0 <= w.y && w.y * w.y == v.y
    ensures SqrtLaw(f) && 0.0 <= v.z ==> 0.0 <= w.z && w.z * w.z == v.z
  {
    Vec3(f.sqrt(v.x), f.sqrt(v.y), f.sqrt(v.z))
  }

  function Cross(u: Vec3, v: Vec3): (w: Vec3)
    ensures Dot(w, u) == 0.0 && Dot(w, v) == 0.0
  {
    Vec3(u.y * v.z - u.z * v.y, u.z * v.x - u.x * v.z, u.x * v.y - u.y * v.x)
  }

  function Neg(v: Vec3): (w: Vec3)
    ensures Add(v, w) == ZERO
  {
    Vec3(-v.x, -v.y, -v.z)
  }

  function Add(u: Vec3, v: Vec3): Vec3 {
    Vec3(u.x + v.x, u.y + v.y, u.z + v.z)
  }

  function Sub(u: Vec3, v: Vec3): (w: Vec3)
    ensures Add(w, v) == u
  {
    Vec3(u.x - v.x, u.y - v.y, u.z - v.z)
  }

  /** `Vec3 * Vec3`: the componentwise (Hadamard) product, used for colours. */
  function Mul(u: Vec3, v: Vec3): Vec3 {
    Vec3(u.x * v.x, u.y * v.y, u.z * v.z)
  }

  /** `Vec3 * f64`. */
  function Scale(v: Vec3, s: real): Vec3 {
    Vec3(v.x * s, v.y * s, v.z * s)
  }

  /** `f64 * Vec3`, implemented by the source as `rhs * self`. */
  function ScaleLeft(s: real, v: Vec3): Vec3 {
    Scale(v, s)
  }

  /** `Vec3 / f64`; a zero divisor gives the unspecified IEEE quotient per component. */
  function Div(f: FloatOps, v: Vec3, s: real): (w: Vec3)
    ensures s != 0.0 ==> Scale(w, s) == v
  {
    Vec3(FDiv(f, v.x, s), FDiv(f, v.y, s), FDiv(f, v.z, s))
  }

  function UnitVector(f: FloatOps, v: Vec3): Vec3 {
    Div(f, v, Length(f, v))
  }

  function Reflect(v: Vec3, n: Vec3): Vec3 {
    Sub(v, ScaleLeft(2.0 * Dot(v, n), n))
  }

  /** `refract(uv, n, ratio)`: the perpendicular part `ratio * (uv + cos n)` plus a part
      along `-n` of length `sqrt(|1 - |perp|²|)`. */
  function Refract(f: FloatOps, uv: Vec3, n: Vec3, etaiOverEtat: real): Vec3 {
    var cosTheta := Min(Dot(Neg(uv), n), 1.0);
    var rOutPerp := ScaleLeft(etaiOverEtat, Add(uv, ScaleLeft(cosTheta, n)));
    var rOutParallel := ScaleLeft(-f.sqrt(Abs(1.0 - LengthSquared(rOutPerp))), n);
    Add(rOutParallel, rOutPerp)
  }

  // ---------------------------------------------------------------- properties

  lemma GetSet(v: Vec3, i: int, value: real, j: int)
    ensures Get(Set(v, i, value), j) == if SameSlot(i, j) then value else Get(v, j)
  {
  }

  lemma DotSymmetric(u: Vec3, v: Vec3)
    ensures Dot(u, v) == Dot(v, u)
  {
  }

  lemma DotLinearLeft(a: Vec3, b: Vec3, s: real, n: Vec3)
    ensures Dot(Add(a, Scale(b, s)), n) == Dot(a, n) + s * Dot(b, n)
  {
  }

  /** `reflect` negates the normal component when `n` is a unit vector. */
  lemma {:induction false} ReflectNegatesNormal(v: Vec3, n: Vec3)
    requires Dot(n, n) == 1.0
    ensures Dot(Reflect(v, n), n) == -Dot(v, n)
  {
    var d, nn := Dot(v, n), Dot(n, n);
    var k := 2.0 * d;
    DotSubScaled(v, n, k);
    MulOne(k, nn);
  }

  /** The normal component of `v - k n` is that of `v` less `k |n|²`. */
  lemma DotSubScaled(v: Vec3, n: Vec3, k: real)
    ensures Dot(Sub(v, ScaleLeft(k, n)), n) == Dot(v, n) - k * Dot(n, n)
  {
    var w := Sub(v, ScaleLeft(k, n));
    assert w.x * n.x == v.x * n.x - k * (n.x * n.x);
    assert w.y * n.y == v.y * n.y - k * (n.y * n.y);
    assert w.z * n.z == v.z * n.z - k * (n.z * n.z);
  }

  lemma MulOne(a: real, b: real)
    requires b == 1.0
    ensures a * b == a
  {
  }

  /** Reflecting twice in the same unit normal gives the vector back. */
  lemma {:induction false} ReflectInvolution(v: Vec3, n: Vec3)
    requires Dot(n, n) == 1.0
    ensures Reflect(Reflect(v, n), n) == v
  {
    var w := Reflect(v, n);
    ReflectNegatesNormal(v, n);
    var k := 2.0 * Dot(v, n);
    assert w == Vec3(v.x - k * n.x, v.y - k * n.y, v.z - k * n.z);
    var k' := 2.0 * Dot(w, n);
    assert k' == -k;
    assert k' * n.x == -(k * n.x) && k' * n.y == -(k * n.y) && k' * n.z == -(k * n.z);
  }

  /** Negation flips dot products and keeps the squared length. */
  lemma NegFlips(v: Vec3, n: Vec3)
    ensures Dot(Neg(v), n) == -Dot(v, n) && LengthSquared(Neg(v)) == LengthSquared(v)
  {
    var w := Neg(v);
    assert w.x * n.x == -(v.x * n.x) && w.y * n.y == -(v.y * n.y) && w.z * n.z == -(v.z * n.z);
    assert w.x * w.x == v.x * v.x && w.y * w.y == v.y * v.y && w.z * w.z == v.z * v.z;
  }

  lemma NegInvolution(v: Vec3)
    ensures Neg(Neg(v)) == v
  {
  }

  lemma ScaleCommutes(s: real, v: Vec3)
    ensures ScaleLeft(s, v) == Scale(v, s)
    ensures ScaleLeft(s, v) == Vec3(s * v.x, s * v.y, s * v.z)
  {
  }

  lemma NearZeroBounds(v: Vec3)
    ensures NearZero(v) <==>
      (-0.00000001 < v.x < 0.00000001 && -0.00000001 < v.y < 0.00000001 && -0.00000001 < v.z < 0.00000001)
  {
  }

  /** For a unit normal and an incoming direction with `dot(-uv, n) <= 1`, the
      perpendicular part of the refracted ray is orthogonal to the normal, so the
      refracted ray's component along the normal is exactly `-sqrt(|1 - |perp|²|)`: it
      continues through the surface. */
  lemma {:induction false} RefractAlongNormal(f: FloatOps, uv: Vec3, n: Vec3, ratio: real)
    requires SqrtLaw(f) && Dot(n, n) == 1.0 && Dot(Neg(uv), n) <= 1.0
    ensures Dot(Refract(f, uv, n, ratio), n) <= 0.0
  {
    var c := Dot(Neg(uv), n);
    var inner := Add(uv, ScaleLeft(c, n));
    TangentPart(uv, n);
    var perp := ScaleLeft(ratio, inner);
    DotScaleLeft(ratio, inner, n);
    var s := f.sqrt(Abs(1.0 - LengthSquared(perp)));
    var par := ScaleLeft(-s, n);
    DotScaleLeft(-s, n, n);
    DotAdd(par, perp, n);
  }

  lemma {:induction false} TangentPart(uv: Vec3, n: Vec3)
    requires Dot(n, n) == 1.0
    ensures Dot(Add(uv, ScaleLeft(Dot(Neg(uv), n), n)), n) == 0.0
  {
    var c := Dot(Neg(uv), n);
    assert ScaleLeft(c, n) == Scale(n, c);
    DotLinearLeft(uv, n, c, n);
    MulOne(c, Dot(n, n));
  }

  lemma DotScaleLeft(s: real, v: Vec3, n: Vec3)
    ensures Dot(ScaleLeft(s, v), n) == s * Dot(v, n)
  {
  }

  lemma DotAdd(a: Vec3, b: Vec3, n: Vec3)
    ensures Dot(Add(a, b), n) == Dot(a, n) + Dot(b, n)
  {
  }
}
