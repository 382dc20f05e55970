/** `Aabb` (src/rt/shapes/aabb.rs): axis-aligned bounding boxes and the two slab tests. */
module Boxes {
  import opened Floats
  import opened Vectors
  import opened Rays

  /** `Aabb::new(min, max)` stores both corners unchanged. */
  datatype Aabb = Aabb(min: Vec3, max: Vec3)

  /** Box `outer` contains box `inner` corner-wise. */
  predicate Contains(outer: Aabb, inner: Aabb) {
    outer.min.x <= inner.min.x && outer.min.y <= inner.min.y && outer.min.z <= inner.min.z &&
    inner.max.x <= outer.max.x && inner.max.y <= outer.max.y && inner.max.z <= outer.max.z
  }

  /** The point `p` lies in the closed box. */
  predicate Inside(b: Aabb, p: Vec3) {
    b.min.x <= p.x <= b.max.x && b.min.y <= p.y <= b.max.y && b.min.z <= p.z <= b.max.z
  }

  /** `surrounding_box`: componentwise min of the minima and max of the maxima. */
  function SurroundingBox(b0: Aabb, b1: Aabb): (b: Aabb)
    ensures Contains(b, b0) && Contains(b, b1)
    ensures forall c :: Contains(c, b0) && Contains(c, b1) ==> Contains(c, b)
  {
    Aabb(Vec3(Min(b0.min.x, b1.min.x), Min(b0.min.y, b1.min.y), Min(b0.min.z, b1.min.z)),
         Vec3(Max(b0.max.x, b1.max.x), Max(b0.max.y, b1.max.y), Max(b0.max.z, b1.max.z)))
  }

  lemma SurroundingCommutes(b0: Aabb, b1: Aabb)
    ensures SurroundingBox(b0, b1) == SurroundingBox(b1, b0)
  {
  }

  lemma SurroundingIdempotent(b: Aabb)
    ensures SurroundingBox(b, b) == b
  {
  }

  lemma ContainsTransitive(a: Aabb, b: Aabb, c: Aabb)
    requires Contains(a, b) && Contains(b, c)
    ensures Contains(a, c)
  {
  }

  lemma ContainsReflexive(a: Aabb)
    ensures Contains(a, a)
  {
  }

  // ---------------------------------------------------------------- `hit`

  /** Entry and exit parameters of a ray on one slab. */
  datatype Span = Span(t0: real, t1: real)

  /** The entry and exit parameters of the ray on slab `a`, after the swap for a
      negative reciprocal direction (src/rt/shapes/aabb.rs:32-38). */
  function Slab(f: FloatOps, b: Aabb, r: Ray, a: int): Span
  {
    var invD := FDiv(f, 1.0, Get(r.direction, a));
    Ordered((Get(b.min, a) - Get(r.origin, a)) * invD, (Get(b.max, a) - Get(r.origin, a)) * invD, invD < 0.0)
  }

  /** The pair `(t0, t1)`, swapped when `swap` holds. */
  function Ordered(t0: real, t1: real, swap: bool): (s: Span)
    ensures s == Span(t0, t1) || s == Span(t1, t0)
  {
    if swap then Span(t1, t0) else Span(t0, t1)
  }

  /** Slab `a` clipped to the caller's interval leaves a non-empty interval. */
  predicate AxisPasses(f: FloatOps, b: Aabb, r: Ray, a: int, tMin: Ext, tMax: Ext) {
    var s := Slab(f, b, r, a);
    !Le(LowerTo(s.t1, tMax), RaiseTo(s.t0, tMin))
  }

  /** What `Aabb::hit` computes: every axis is clipped against the caller's ORIGINAL
      interval, because the narrowed bounds are `let`-shadowed inside the loop. */
  predicate SlabHit(f: FloatOps, b: Aabb, r: Ray, tMin: Ext, tMax: Ext) {
    forall a | 0 <= a < 3 :: AxisPasses(f, b, r, a, tMin, tMax)
  }

  /** `Aabb::hit`: the loop over the three axes with an early `false`. */
  method Hit(f: FloatOps, b: Aabb, r: Ray, tMin: Ext, tMax: Ext) returns (result: bool)
    ensures result == SlabHit(f, b, r, tMin, tMax)
  {
    for a := 0 to 3
      invariant forall a' | 0 <= a' < a :: AxisPasses(f, b, r, a', tMin, tMax)
    {
      var invD := FDiv(f, 1.0, Get(r.direction, a));
      var t0 := (Get(b.min, a) - Get(r.origin, a)) * invD;
      var t1 := (Get(b.max, a) - Get(r.origin, a)) * invD;
      assert Slab(f, b, r, a) == Ordered(t0, t1, invD < 0.0);
      if invD < 0.0 {
        t0, t1 := t1, t0;
      }
      var lo := if Lt(tMin, Fin(t0)) then Fin(t0) else tMin;
      var hi := if Lt(Fin(t1), tMax) then Fin(t1) else tMax;
      if Le(hi, lo) {
        assert !AxisPasses(f, b, r, a, tMin, tMax);
        return false;
      }
    }
    return true;
  }

  /** Per axis, the entry parameter is at most the exit parameter whenever the box is
      well formed on that axis; this holds for any value of the reciprocal. */
  lemma {:induction false} SlabOrdered(f: FloatOps, b: Aabb, r: Ray, a: int)
    requires Get(b.min, a) <= Get(b.max, a)
    ensures Slab(f, b, r, a).t0 <= Slab(f, b, r, a).t1
  {
    var invD := FDiv(f, 1.0, Get(r.direction, a));
    var lo, hi := Get(b.min, a) - Get(r.origin, a), Get(b.max, a) - Get(r.origin, a);
    if invD < 0.0 {
      MulLeMono(lo, hi, -invD);
      assert lo * (-invD) == -(lo * invD) && hi * (-invD) == -(hi * invD);
    } else {
      MulLeMono(lo, hi, invD);
    }
  }

  /** The test is conservative: when the ray passes strictly inside the box at a
      parameter strictly inside the interval, and no direction component is zero,
      `hit` answers true. */
  lemma {:induction false} SlabHitConservative(f: FloatOps, b: Aabb, r: Ray, tMin: Ext, tMax: Ext, t: real)
    requires r.direction.x != 0.0 && r.direction.y != 0.0 && r.direction.z != 0.0
    requires Lt(tMin, Fin(t)) && Lt(Fin(t), tMax)
    requires b.min.x < At(r, t).x < b.max.x
    requires b.min.y < At(r, t).y < b.max.y
    requires b.min.z < At(r, t).z < b.max.z
    ensures SlabHit(f, b, r, tMin, tMax)
  {
    forall a | 0 <= a < 3
      ensures AxisPasses(f, b, r, a, tMin, tMax)
    {
      assert Get(At(r, t), a) == Get(r.origin, a) + t * Get(r.direction, a);
      SlabContains(f, b, r, a, t);
    }
  }

  /** `p` lies strictly inside `b` on every axis. */
  predicate StrictlyInside(b: Aabb, p: Vec3) {
    b.min.x < p.x < b.max.x && b.min.y < p.y < b.max.y && b.min.z < p.z < b.max.z
  }

  /** The closed-interval form of `SlabHitConservative`: a ray strictly inside the box
      at any time of a non-empty interval, its ends included, passes the test. */
  lemma {:induction false} SlabHitAtInterior(f: FloatOps, b: Aabb, r: Ray, lo: Ext, hi: Ext, t: real)
    requires r.direction.x != 0.0 && r.direction.y != 0.0 && r.direction.z != 0.0
    requires Lt(lo, hi) && InRange(t, lo, hi)
    requires StrictlyInside(b, At(r, t))
    ensures SlabHit(f, b, r, lo, hi)
  {
    forall a | 0 <= a < 3
      ensures AxisPasses(f, b, r, a, lo, hi)
    {
      assert Get(At(r, t), a) == Get(r.origin, a) + t * Get(r.direction, a);
      SlabContains(f, b, r, a, t);
    }
  }

  /** On one axis with a non-zero direction component, a parameter at which the ray
      is strictly between the two planes lies strictly between entry and exit. */
  lemma {:induction false} SlabContains(f: FloatOps, b: Aabb, r: Ray, a: int, t: real)
    requires Get(r.direction, a) != 0.0
    requires Get(b.min, a) < Get(r.origin, a) + t * Get(r.direction, a) < Get(b.max, a)
    ensures Slab(f, b, r, a).t0 < t < Slab(f, b, r, a).t1
  {
    var d := Get(r.direction, a);
    var invD := FDiv(f, 1.0, d);
    assert invD * d == 1.0;
    var lo, hi := Get(b.min, a) - Get(r.origin, a), Get(b.max, a) - Get(r.origin, a);
    assert lo < t * d < hi;
    assert (t * d) * invD == t * (d * invD);
    if d > 0.0 {
      assert invD > 0.0;
      MulLtMono(lo, t * d, invD);
      MulLtMono(t * d, hi, invD);
    } else {
      assert invD < 0.0;
      MulLtMono(lo, t * d, -invD);
      MulLtMono(t * d, hi, -invD);
      assert lo * (-invD) == -(lo * invD) && hi * (-invD) == -(hi * invD);
      assert (t * d) * (-invD) == -((t * d) * invD);
    }
  }

  /** Because nothing accumulates across axes, `hit` can accept a ray that misses the
      box: here the x-slab is crossed during [2, 3] and the y- and z-slabs during [0, 1]. */
  lemma SlabHitAcceptsMiss(f: FloatOps)
    ensures var b := Aabb(ZERO, WHITE);
            var r := Ray(Vec3(-2.0, 0.0, 0.0), WHITE, 0.0);
            SlabHit(f, b, r, NegInf, PosInf) && forall t :: !Inside(b, At(r, t))
  {
    var b := Aabb(ZERO, WHITE);
    var r := Ray(Vec3(-2.0, 0.0, 0.0), WHITE, 0.0);
    forall a | 0 <= a < 3
      ensures AxisPasses(f, b, r, a, NegInf, PosInf)
    {
      assert FDiv(f, 1.0, Get(r.direction, a)) == 1.0;
    }
  }

  // ---------------------------------------------------------------- `_hit`

  /** Entry and exit of `_hit`, by `min`/`max` of the two plane parameters. */
  function SlabByMinMax(f: FloatOps, b: Aabb, r: Ray, a: int): (s: Span)
    ensures s.t0 <= s.t1
  {
    var d := Get(r.direction, a);
    var p0 := FDiv(f, Get(b.min, a) - Get(r.origin, a), d);
    var p1 := FDiv(f, Get(b.max, a) - Get(r.origin, a), d);
    Span(Min(p0, p1), Max(p0, p1))
  }

  predicate AxisPassesByMinMax(f: FloatOps, b: Aabb, r: Ray, a: int, tMin: Ext, tMax: Ext) {
    var s := SlabByMinMax(f, b, r, a);
    !Le(LowerTo(s.t1, tMax), RaiseTo(s.t0, tMin))
  }

  predicate SlabHitByMinMax(f: FloatOps, b: Aabb, r: Ray, tMin: Ext, tMax: Ext) {
    forall a | 0 <= a < 3 :: AxisPassesByMinMax(f, b, r, a, tMin, tMax)
  }

  /** `Aabb::_hit`: the same loop, with the two parameters ordered by `min`/`max`. */
  method HitByMinMax(f: FloatOps, b: Aabb, r: Ray, tMin: Ext, tMax: Ext) returns (result: bool)
    ensures result == SlabHitByMinMax(f, b, r, tMin, tMax)
  {
    for a := 0 to 3
      invariant forall a' | 0 <= a' < a :: AxisPassesByMinMax(f, b, r, a', tMin, tMax)
    {
      var d := Get(r.direction, a);
      var p0 := FDiv(f, Get(b.min, a) - Get(r.origin, a), d);
      var p1 := FDiv(f, Get(b.max, a) - Get(r.origin, a), d);
      var t0 := Min(p0, p1);
      var t1 := Max(p0, p1);
      assert SlabByMinMax(f, b, r, a) == Span(t0, t1);
      var lo := if Lt(tMin, Fin(t0)) then Fin(t0) else tMin;
      var hi := if Lt(Fin(t1), tMax) then Fin(t1) else tMax;
      if Le(hi, lo) {
        assert !AxisPassesByMinMax(f, b, r, a, tMin, tMax);
        return false;
      }
    }
    return true;
  }

  /** With non-zero direction components and a well-formed box, both tests compute the
      same entry and exit on every axis, so they agree. */
  lemma {:induction false} HitsAgree(f: FloatOps, b: Aabb, r: Ray, tMin: Ext, tMax: Ext)
    requires r.direction.x != 0.0 && r.direction.y != 0.0 && r.direction.z != 0.0
    requires b.min.x <= b.max.x && b.min.y <= b.max.y && b.min.z <= b.max.z
    ensures SlabHit(f, b, r, tMin, tMax) == SlabHitByMinMax(f, b, r, tMin, tMax)
  {
    forall a | 0 <= a < 3
      ensures AxisPasses(f, b, r, a, tMin, tMax) == AxisPassesByMinMax(f, b, r, a, tMin, tMax)
    {
      SlabsAgree(f, b, r, a);
    }
  }

  lemma {:induction false} SlabsAgree(f: FloatOps, b: Aabb, r: Ray, a: int)
    requires Get(r.direction, a) != 0.0
    requires Get(b.min, a) <= Get(b.max, a)
    ensures Slab(f, b, r, a) == SlabByMinMax(f, b, r, a)
  {
    var d := Get(r.direction, a);
    var invD := FDiv(f, 1.0, d);
    var lo, hi := Get(b.min, a) - Get(r.origin, a), Get(b.max, a) - Get(r.origin, a);
    var p0, p1 := FDiv(f, lo, d), FDiv(f, hi, d);
    assert invD == 1.0 / d;
    assert lo * invD == p0 && hi * invD == p1;
    SlabOrdered(f, b, r, a);
    if d < 0.0 {
      assert invD < 0.0;
      assert p1 <= p0;
      assert Slab(f, b, r, a) == Span(p1, p0);
    } else {
      assert 0.0 < invD;
      assert p0 <= p1;
      assert Slab(f, b, r, a) == Span(p0, p1);
    }
  }
}
