/** `Onb` (src/rt/onb.rs): an orthonormal basis built around a direction `w`, and the
    map from local coordinates in that basis to world coordinates. */
module Onbs {
  import opened Floats
  import opened Vectors

  datatype Onb = Onb(u: Vec3, v: Vec3, w: Vec3)

  /** The helper axis crossed with `w`: `UNIT_Y` when `|w.x| > 0.9`, `UNIT_X` otherwise,
      so that it is never parallel to a unit `w`. */
  function ReferenceAxis(w: Vec3): (a: Vec3)
    ensures Abs(w.x) > 0.9 ==> a == Vec3(0.0, 1.0, 0.0)
    ensures Abs(w.x) <= 0.9 ==> a == Vec3(1.0, 0.0, 0.0)
  {
    if Abs(w.x) > 0.9 then Vec3(0.0, 1.0, 0.0) else Vec3(1.0, 0.0, 0.0)
  }

  /** `build_from_w(n)`: `w` is `n` normalised, `v` the normalised cross product of `w`
      with the reference axis, and `u = w × v`, which is orthogonal to both. */
  function BuildFromW(f: FloatOps, n: Vec3): (b: Onb)
    ensures b.w == UnitVector(f, n)
    ensures b.v == UnitVector(f, Cross(b.w, ReferenceAxis(b.w)))
    ensures Dot(b.u, b.w) == 0.0 && Dot(b.u, b.v) == 0.0
  {
    var w := UnitVector(f, n);
    var v := UnitVector(f, Cross(w, ReferenceAxis(w)));
    Onb(Cross(w, v), v, w)
  }

  /** `local(a) = a.x u + a.y v + a.z w`. */
  function Local(b: Onb, a: Vec3): Vec3 {
    Vec3(Combine(a, b.u.x, b.v.x, b.w.x), Combine(a, b.u.y, b.v.y, b.w.y), Combine(a, b.u.z, b.v.z, b.w.z))
  }

  /** One component of `local(a)`: `a.x p + a.y q + a.z r`. */
  function Combine(a: Vec3, p: real, q: real, r: real): real {
    a.x * p + a.y * q + a.z * r
  }

  // ---------------------------------------------------------------- properties

  /** `local` maps the standard axes to the basis vectors. */
  lemma LocalAxes(b: Onb)
    ensures Local(b, Vec3(1.0, 0.0, 0.0)) == b.u
    ensures Local(b, Vec3(0.0, 1.0, 0.0)) == b.v
    ensures Local(b, Vec3(0.0, 0.0, 1.0)) == b.w
  {
  }

  /** `local` is linear: it preserves sums ... */
  lemma {:induction false} LocalAdditive(b: Onb, a1: Vec3, a2: Vec3)
    ensures Local(b, Add(a1, a2)) == Add(Local(b, a1), Local(b, a2))
  {
    CombineAdditive(a1, a2, b.u.x, b.v.x, b.w.x);
    CombineAdditive(a1, a2, b.u.y, b.v.y, b.w.y);
    CombineAdditive(a1, a2, b.u.z, b.v.z, b.w.z);
  }

  /** ... and scalings. */
  lemma {:induction false} LocalHomogeneous(b: Onb, a: Vec3, s: real)
    ensures Local(b, Scale(a, s)) == Scale(Local(b, a), s)
  {
    CombineHomogeneous(a, s, b.u.x, b.v.x, b.w.x);
    CombineHomogeneous(a, s, b.u.y, b.v.y, b.w.y);
    CombineHomogeneous(a, s, b.u.z, b.v.z, b.w.z);
  }

  /** The component of `local(a)` along any `n` combines those of the basis vectors. */
  lemma {:induction false} LocalDot(b: Onb, a: Vec3, n: Vec3)
    ensures Dot(Local(b, a), n) == a.x * Dot(b.u, n) + a.y * Dot(b.v, n) + a.z * Dot(b.w, n)
  {
    var l := Local(b, a);
    assert l.x * n.x == a.x * (b.u.x * n.x) + a.y * (b.v.x * n.x) + a.z * (b.w.x * n.x);
    assert l.y * n.y == a.x * (b.u.y * n.y) + a.y * (b.v.y * n.y) + a.z * (b.w.y * n.y);
    assert l.z * n.z == a.x * (b.u.z * n.z) + a.y * (b.v.z * n.z) + a.z * (b.w.z * n.z);
  }

  /** In an orthonormal basis the `w` component of `local(a)` is `a.z`. */
  lemma {:induction false} LocalAlongW(b: Onb, a: Vec3)
    requires Dot(b.u, b.w) == 0.0 && Dot(b.v, b.w) == 0.0 && LengthSquared(b.w) == 1.0
    ensures Dot(Local(b, a), b.w) == a.z
  {
    LocalDot(b, a, b.w);
  }

  lemma CombineAdditive(a1: Vec3, a2: Vec3, p: real, q: real, r: real)
    ensures Combine(Add(a1, a2), p, q, r) == Combine(a1, p, q, r) + Combine(a2, p, q, r)
  {
    var s := Add(a1, a2);
    assert s.x * p == a1.x * p + a2.x * p;
    assert s.y * q == a1.y * q + a2.y * q;
    assert s.z * r == a1.z * r + a2.z * r;
  }

  lemma CombineHomogeneous(a: Vec3, k: real, p: real, q: real, r: real)
    ensures Combine(Scale(a, k), p, q, r) == Combine(a, p, q, r) * k
  {
    var s := Scale(a, k);
    assert s.x * p == (a.x * p) * k;
    assert s.y * q == (a.y * q) * k;
    assert s.z * r == (a.z * r) * k;
  }

  /** Normalising a non-zero vector gives a unit vector. */
  lemma {:induction false} UnitVectorIsUnit(f: FloatOps, x: Vec3)
    requires SqrtLaw(f) && 0.0 < LengthSquared(x)
    ensures LengthSquared(UnitVector(f, x)) == 1.0
  {
    var s := Length(f, x);
    SqrtPositive(f, LengthSquared(x));
    var y := UnitVector(f, x);
    assert Scale(y, s) == x;
    assert s * s == LengthSquared(x);
    assert (y.x * s) * (y.x * s) == (y.x * y.x) * (s * s);
    assert (y.y * s) * (y.y * s) == (y.y * y.y) * (s * s);
    assert (y.z * s) * (y.z * s) == (y.z * y.z) * (s * s);
    assert LengthSquared(y) * (s * s) == LengthSquared(x);
    MulPos(s, s);
    assert (LengthSquared(y) - 1.0) * (s * s) == 0.0;
    MulZero(LengthSquared(y) - 1.0, s * s);
  }

  /** Normalising keeps the vector's direction: a zero dot product stays zero. */
  lemma {:induction false} UnitVectorKeepsOrthogonality(f: FloatOps, x: Vec3, n: Vec3)
    requires SqrtLaw(f) && 0.0 < LengthSquared(x) && Dot(x, n) == 0.0
    ensures Dot(UnitVector(f, x), n) == 0.0
  {
    var s := Length(f, x);
    SqrtPositive(f, LengthSquared(x));
    var y := UnitVector(f, x);
    assert Scale(y, s) == x;
    assert Dot(x, n) == s * Dot(y, n);
    MulZero(s, Dot(y, n));
  }

  /** The reference axis is never parallel to a unit vector: the cross product is
      non-zero. */
  lemma {:induction false} ReferenceAxisNotParallel(w: Vec3)
    requires LengthSquared(w) == 1.0
    ensures 0.0 < LengthSquared(Cross(w, ReferenceAxis(w)))
  {
    var c := Cross(w, ReferenceAxis(w));
    if Abs(w.x) > 0.9 {
      assert c == Vec3(-w.z, 0.0, w.x);
      assert LengthSquared(c) == w.x * w.x + w.z * w.z;
      SumOfSquaresPositive(w.x, w.z);
    } else {
      assert c == Vec3(0.0, w.z, -w.y);
      assert LengthSquared(c) == w.y * w.y + w.z * w.z;
      SmallSquare(w.x);
      assert w.y * w.y + w.z * w.z >= 0.19;
    }
  }

  lemma SumOfSquaresPositive(a: real, b: real)
    requires a != 0.0
    ensures 0.0 < a * a + b * b
  {
    if a < 0.0 { MulPos(-a, -a); } else { MulPos(a, a); }
    assert 0.0 <= b * b;
  }

  lemma SmallSquare(a: real)
    requires Abs(a) <= 0.9
    ensures a * a <= 0.81
  {
    var ax := Abs(a);
    MulLeMono(ax, 0.9, ax);
    assert ax * ax <= 0.9 * ax;
    assert 0.9 * ax <= 0.81;
    assert ax * ax == a * a;
  }

  /** `|a × b|² = |a|²|b|² - (a · b)²` (Lagrange's identity). */
  lemma CrossLength(a: Vec3, b: Vec3)
    ensures LengthSquared(Cross(a, b)) == LengthSquared(a) * LengthSquared(b) - Dot(a, b) * Dot(a, b)
  {
  }

  /** For any non-zero `n` the basis is orthonormal: three unit vectors, pairwise
      orthogonal, with `w` pointing along `n`. */
  lemma {:induction false} BuildFromWOrthonormal(f: FloatOps, n: Vec3)
    requires SqrtLaw(f) && 0.0 < LengthSquared(n)
    ensures var b := BuildFromW(f, n);
            && LengthSquared(b.u) == 1.0 && LengthSquared(b.v) == 1.0 && LengthSquared(b.w) == 1.0
            && Dot(b.v, b.w) == 0.0 && Dot(b.u, b.w) == 0.0 && Dot(b.u, b.v) == 0.0
            && Scale(b.w, Length(f, n)) == n
  {
    var b := BuildFromW(f, n);
    UnitVectorIsUnit(f, n);
    var c := Cross(b.w, ReferenceAxis(b.w));
    ReferenceAxisNotParallel(b.w);
    UnitVectorIsUnit(f, c);
    UnitVectorKeepsOrthogonality(f, c, b.w);
    DotSymmetric(b.w, b.v);
    CrossLength(b.w, b.v);
    assert LengthSquared(b.u) == 1.0 * 1.0 - 0.0 * 0.0;
    SqrtPositive(f, LengthSquared(n));
  }
}
