/** `RotateY` (src/rt/shapes/rotate_y.rs): an object rotated about the y axis. The
    constructor precomputes the rotated object's box by folding the eight rotated corners
    of the child's box into running `min`/`max` points that start at +inf and -inf. */
module RotateYs {
  import opened Floats
  import opened Vectors
  import opened Rays
  import opened Boxes
  import opened HitRecords
  import opened Hittables

  datatype RotateY = RotateY(child: Shape, sinTheta: real, cosTheta: real, bbox: Option<Aabb>)

  // ---------------------------------------------------------------- the constructor's fold

  /** A point whose components may still be +inf or -inf (the fold's accumulators). */
  datatype ExtVec = ExtVec(x: Ext, y: Ext, z: Ext)

  const ALL_POS_INF: ExtVec := ExtVec(PosInf, PosInf, PosInf)
  const ALL_NEG_INF: ExtVec := ExtVec(NegInf, NegInf, NegInf)

  /** `get` on an accumulator: 0 is x, 1 is y, every other index z. */
  function GetE(v: ExtVec, i: int): (e: Ext)
    ensures e == (if i == 0 then v.x else if i == 1 then v.y else v.z)
  {
    if i == 0 then v.x else if i == 1 then v.y else v.z
  }

  /** `set` on an accumulator: every index other than 0 and 1 writes z. */
  function SetE(v: ExtVec, i: int, e: Ext): (w: ExtVec)
    ensures GetE(w, i) == e
    ensures forall j :: SameSlot(i, j) || GetE(w, j) == GetE(v, j)
  {
    if i == 0 then v.(x := e) else if i == 1 then v.(y := e) else v.(z := e)
  }

  /** The running minimum after `p` is folded in, component by component: each component
      is the smaller of the accumulator's and the point's. */
  function Lower(v: ExtVec, p: Vec3): (w: ExtVec)
    ensures Le(w.x, v.x) && Le(w.x, Fin(p.x)) && (w.x == v.x || w.x == Fin(p.x))
    ensures Le(w.y, v.y) && Le(w.y, Fin(p.y)) && (w.y == v.y || w.y == Fin(p.y))
    ensures Le(w.z, v.z) && Le(w.z, Fin(p.z)) && (w.z == v.z || w.z == Fin(p.z))
  {
    ExtVec(LowerTo(p.x, v.x), LowerTo(p.y, v.y), LowerTo(p.z, v.z))
  }

  /** The running maximum after `p` is folded in, component by component: each component
      is the larger of the accumulator's and the point's. */
  function Upper(v: ExtVec, p: Vec3): (w: ExtVec)
    ensures Le(v.x, w.x) && Le(Fin(p.x), w.x) && (w.x == v.x || w.x == Fin(p.x))
    ensures Le(v.y, w.y) && Le(Fin(p.y), w.y) && (w.y == v.y || w.y == Fin(p.y))
    ensures Le(v.z, w.z) && Le(Fin(p.z), w.z) && (w.z == v.z || w.z == Fin(p.z))
  {
    ExtVec(RaiseTo(p.x, v.x), RaiseTo(p.y, v.y), RaiseTo(p.z, v.z))
  }

  /** The componentwise minimum of a list of points (+inf for none). */
  function LowerOf(pts: seq<Vec3>): ExtVec
    decreases |pts|
  {
    if |pts| == 0 then ALL_POS_INF else Lower(LowerOf(pts[..|pts| - 1]), pts[|pts| - 1])
  }

  /** The componentwise maximum of a list of points (-inf for none). */
  function UpperOf(pts: seq<Vec3>): ExtVec
    decreases |pts|
  {
    if |pts| == 0 then ALL_NEG_INF else Upper(UpperOf(pts[..|pts| - 1]), pts[|pts| - 1])
  }

  /** Corner `(i, j, k)` of `b` (each index 0 or 1 picks min or max), rotated:
      x' = cos x + sin z, y' = y, z' = -sin x + cos z. */
  function Corner(b: Aabb, sinTheta: real, cosTheta: real, i: int, j: int, k: int): Vec3 {
    var ir, jr, kr := i as real, j as real, k as real;
    var x := ir * b.max.x + (1.0 - ir) * b.min.x;
    var y := jr * b.max.y + (1.0 - jr) * b.min.y;
    var z := kr * b.max.z + (1.0 - kr) * b.min.z;
    Vec3(cosTheta * x + sinTheta * z, y, -sinTheta * x + cosTheta * z)
  }

  /** The eight rotated corners in the loops' order (i outermost, k innermost). */
  function Corners(b: Aabb, sinTheta: real, cosTheta: real): (cs: seq<Vec3>)
    ensures |cs| == 8
  {
    [Corner(b, sinTheta, cosTheta, 0, 0, 0), Corner(b, sinTheta, cosTheta, 0, 0, 1),
     Corner(b, sinTheta, cosTheta, 0, 1, 0), Corner(b, sinTheta, cosTheta, 0, 1, 1),
     Corner(b, sinTheta, cosTheta, 1, 0, 0), Corner(b, sinTheta, cosTheta, 1, 0, 1),
     Corner(b, sinTheta, cosTheta, 1, 1, 0), Corner(b, sinTheta, cosTheta, 1, 1, 1)]
  }

  /** An accumulator with no infinite component, read as a point. */
  function ToVec(v: ExtVec): (p: Vec3)
    requires v.x.Fin? && v.y.Fin? && v.z.Fin?
    ensures Fin(p.x) == v.x && Fin(p.y) == v.y && Fin(p.z) == v.z
  {
    Vec3(v.x.v, v.y.v, v.z.v)
  }

  /** The box the constructor builds around the rotated corners of `b`. */
  function RotatedBox(b: Aabb, sinTheta: real, cosTheta: real): Aabb {
    var cs := Corners(b, sinTheta, cosTheta);
    FoldFinite(cs);
    Aabb(ToVec(LowerOf(cs)), ToVec(UpperOf(cs)))
  }

  /** The inner loop `for c in 0..3`: folds `tester` into `min` and `max` through
      `get`/`set`. */
  method Include(min: ExtVec, max: ExtVec, tester: Vec3) returns (min': ExtVec, max': ExtVec)
    ensures min' == Lower(min, tester) && max' == Upper(max, tester)
  {
    min', max' := min, max;
    for c := 0 to 3
      invariant forall d | 0 <= d < c :: GetE(min', d) == LowerTo(Get(tester, d), GetE(min, d))
      invariant forall d | 0 <= d < c :: GetE(max', d) == RaiseTo(Get(tester, d), GetE(max, d))
      invariant forall d | c <= d < 3 :: GetE(min', d) == GetE(min, d) && GetE(max', d) == GetE(max, d)
    {
      min' := SetE(min', c, LowerTo(Get(tester, c), GetE(min', c)));
      max' := SetE(max', c, RaiseTo(Get(tester, c), GetE(max', c)));
    }
    assert GetE(min', 0) == min'.x && GetE(min', 1) == min'.y && GetE(min', 2) == min'.z;
    assert GetE(max', 0) == max'.x && GetE(max', 1) == max'.y && GetE(max', 2) == max'.z;
  }

  /** `RotateY::new`: the angle is converted to radians and its sine and cosine stored;
      the child's box at times (0, 1), if any, is replaced by the box of its rotated
      corners, computed by the three nested corner loops. */
  method New(f: FloatOps, child: Shape, angle: real) returns (ry: RotateY)
    ensures ry.child == child
    ensures ry.sinTheta == f.sin(DegreesToRadians(angle))
    ensures ry.cosTheta == f.cos(DegreesToRadians(angle))
    ensures ry.bbox.None? <==> child.boundingBox(0.0, 1.0).None?
    ensures ry.bbox.Some? ==>
      ry.bbox.value == RotatedBox(child.boundingBox(0.0, 1.0).value, ry.sinTheta, ry.cosTheta)
  {
    var radians := DegreesToRadians(angle);
    var sinTheta := f.sin(radians);
    var cosTheta := f.cos(radians);
    var bbox: Option<Aabb> := None;
    match child.boundingBox(0.0, 1.0) {
      case None =>
      case Some(b) =>
        var rotated := CornerEnvelope(b, sinTheta, cosTheta);
        bbox := Some(rotated);
    }
    ry := RotateY(child, sinTheta, cosTheta, bbox);
  }

  /** The closure mapped over the child's box: folds the eight rotated corners into
      `min` (starting at +inf) and `max` (starting at -inf) in three nested loops. */
  method CornerEnvelope(b: Aabb, sinTheta: real, cosTheta: real) returns (rotated: Aabb)
    ensures rotated == RotatedBox(b, sinTheta, cosTheta)
  {
    ghost var cs := Corners(b, sinTheta, cosTheta);
    ghost var n := 0;
    var min := ALL_POS_INF;
    var max := ALL_NEG_INF;
    for i := 0 to 2
      invariant n == 4 * i
      invariant min == LowerOf(cs[..n]) && max == UpperOf(cs[..n])
    {
      for j := 0 to 2
        invariant n == 4 * i + 2 * j
        invariant min == LowerOf(cs[..n]) && max == UpperOf(cs[..n])
      {
        for k := 0 to 2
          invariant n == 4 * i + 2 * j + k
          invariant min == LowerOf(cs[..n]) && max == UpperOf(cs[..n])
        {
          var tester := Corner(b, sinTheta, cosTheta, i, j, k);
          FoldStep(b, sinTheta, cosTheta, i, j, k);
          min, max := Include(min, max, tester);
          n := n + 1;
        }
      }
    }
    assert cs[..8] == cs;
    FoldFinite(cs);
    rotated := Aabb(ToVec(min), ToVec(max));
  }

  /** Folding corner `(i, j, k)` extends the folded prefix of the corners by one. */
  lemma FoldStep(b: Aabb, sinTheta: real, cosTheta: real, i: int, j: int, k: int)
    requires 0 <= i < 2 && 0 <= j < 2 && 0 <= k < 2
    ensures var cs, n := Corners(b, sinTheta, cosTheta), 4 * i + 2 * j + k;
            LowerOf(cs[..n + 1]) == Lower(LowerOf(cs[..n]), Corner(b, sinTheta, cosTheta, i, j, k)) &&
            UpperOf(cs[..n + 1]) == Upper(UpperOf(cs[..n]), Corner(b, sinTheta, cosTheta, i, j, k))
  {
    var cs, n := Corners(b, sinTheta, cosTheta), 4 * i + 2 * j + k;
    CornerIndex(b, sinTheta, cosTheta, i, j, k);
    assert cs[..n + 1][..n] == cs[..n];
  }

  /** Corner `(i, j, k)` is the loops' `4 i + 2 j + k`-th corner. */
  lemma CornerIndex(b: Aabb, sinTheta: real, cosTheta: real, i: int, j: int, k: int)
    requires 0 <= i < 2 && 0 <= j < 2 && 0 <= k < 2
    ensures Corners(b, sinTheta, cosTheta)[4 * i + 2 * j + k] == Corner(b, sinTheta, cosTheta, i, j, k)
  {
  }

  // ---------------------------------------------------------------- hit

  /** The two in-place `set`s on a copy of `v` that rotate it into object space. */
  function ToObject(v: Vec3, sinTheta: real, cosTheta: real): (w: Vec3)
    ensures w.y == v.y
  {
    var w0 := Set(v, 0, cosTheta * Get(v, 0) - sinTheta * Get(v, 2));
    Set(w0, 2, sinTheta * Get(v, 0) + cosTheta * Get(v, 2))
  }

  /** The two in-place `set`s on a copy of `v` that rotate it back to world space. */
  function ToWorld(v: Vec3, sinTheta: real, cosTheta: real): (w: Vec3)
    ensures w.y == v.y
  {
    var w0 := Set(v, 0, cosTheta * Get(v, 0) + sinTheta * Get(v, 2));
    Set(w0, 2, -sinTheta * Get(v, 0) + cosTheta * Get(v, 2))
  }

  /** The query ray rotated into object space, same time. */
  function RotatedRay(ry: RotateY, r: Ray): (rr: Ray)
    ensures rr.origin.y == r.origin.y && rr.direction.y == r.direction.y && rr.time == r.time
  {
    Ray(ToObject(r.origin, ry.sinTheta, ry.cosTheta), ToObject(r.direction, ry.sinTheta, ry.cosTheta), r.time)
  }

  /** `hit`: queries the child with the rotated ray and the same interval, rotates the
      hit point and normal back and re-orients the normal against the rotated ray. */
  function Hit(ry: RotateY, r: Ray, tMin: Ext, tMax: Ext): (res: Option<HitRecord>)
    ensures var child := ry.child.hit(RotatedRay(ry, r), tMin, tMax);
            (res.None? <==> child.None?) &&
            (res.Some? ==>
              res.value.t == child.value.t && res.value.u == child.value.u &&
              res.value.v == child.value.v && res.value.material == child.value.material &&
              res.value.p == ToWorld(child.value.p, ry.sinTheta, ry.cosTheta) &&
              FaceNormal(res.value.frontFace, res.value.normal)
                == GetFaceNormal(RotatedRay(ry, r), ToWorld(child.value.normal, ry.sinTheta, ry.cosTheta)))
  {
    var rotated := RotatedRay(ry, r);
    match ry.child.hit(rotated, tMin, tMax)
    case None => None
    case Some(rec) =>
      var p := ToWorld(rec.p, ry.sinTheta, ry.cosTheta);
      var normal := ToWorld(rec.normal, ry.sinTheta, ry.cosTheta);
      Some(SetFaceNormal(rec.(p := p), rotated, normal))
  }

  /** `bounding_box`: the precomputed box, whatever the times. */
  function BoundingBox(ry: RotateY, time0: real, time1: real): (b: Option<Aabb>)
    ensures b == ry.bbox
  {
    ry.bbox
  }

  function AsShape(ry: RotateY): (s: Shape)
    ensures forall r, lo, hi :: s.hit(r, lo, hi) == Hit(ry, r, lo, hi)
    ensures forall t0, t1 :: s.boundingBox(t0, t1) == BoundingBox(ry, t0, t1)
  {
    Shape((r, lo, hi) => Hit(ry, r, lo, hi), (t0, t1) => BoundingBox(ry, t0, t1))
  }

  // ---------------------------------------------------------------- properties of the fold

  /** The fold's minimum is below, and its maximum above, every point folded in. */
  lemma {:induction false} FoldBounds(pts: seq<Vec3>, q: Vec3)
    requires q in pts
    ensures Le(LowerOf(pts).x, Fin(q.x)) && Le(LowerOf(pts).y, Fin(q.y)) && Le(LowerOf(pts).z, Fin(q.z))
    ensures Le(Fin(q.x), UpperOf(pts).x) && Le(Fin(q.y), UpperOf(pts).y) && Le(Fin(q.z), UpperOf(pts).z)
    decreases |pts|
  {
    var init := pts[..|pts| - 1];
    if q != pts[|pts| - 1] {
      assert q in init;
      FoldBounds(init, q);
    }
  }

  /** Once a point has been folded in, every component is finite and is some point's. */
  lemma {:induction false} FoldFinite(pts: seq<Vec3>)
    requires |pts| > 0
    ensures LowerOf(pts).x.Fin? && LowerOf(pts).y.Fin? && LowerOf(pts).z.Fin?
    ensures UpperOf(pts).x.Fin? && UpperOf(pts).y.Fin? && UpperOf(pts).z.Fin?
    ensures exists q :: q in pts && LowerOf(pts).x == Fin(q.x)
    ensures exists q :: q in pts && LowerOf(pts).y == Fin(q.y)
    ensures exists q :: q in pts && UpperOf(pts).x == Fin(q.x)
    ensures exists q :: q in pts && UpperOf(pts).y == Fin(q.y)
    decreases |pts|
  {
    var init, last := pts[..|pts| - 1], pts[|pts| - 1];
    assert last in pts;
    if |init| > 0 {
      FoldFinite(init);
      forall q | q in init ensures q in pts {
        var idx :| 0 <= idx < |init| && init[idx] == q;
        assert pts[idx] == q;
      }
    }
  }

  // ---------------------------------------------------------------- properties of RotateY

  /** The rotated box contains all eight rotated corners of the child's box. */
  lemma RotatedBoxContainsCorners(b: Aabb, sinTheta: real, cosTheta: real, i: int, j: int, k: int)
    requires 0 <= i < 2 && 0 <= j < 2 && 0 <= k < 2
    ensures Inside(RotatedBox(b, sinTheta, cosTheta), Corner(b, sinTheta, cosTheta, i, j, k))
  {
    var cs := Corners(b, sinTheta, cosTheta);
    CornerIndex(b, sinTheta, cosTheta, i, j, k);
    FoldFinite(cs);
    FoldBounds(cs, cs[4 * i + 2 * j + k]);
  }

  /** The rotated box is ordered: min <= max on every axis, although the fold starts
      from +inf and -inf. */
  lemma RotatedBoxOrdered(b: Aabb, sinTheta: real, cosTheta: real)
    ensures var rb := RotatedBox(b, sinTheta, cosTheta);
            rb.min.x <= rb.max.x && rb.min.y <= rb.max.y && rb.min.z <= rb.max.z
  {
    RotatedBoxContainsCorners(b, sinTheta, cosTheta, 0, 0, 0);
  }

  /** The rotation leaves the y range of the child's box as it was. */
  lemma RotatedBoxKeepsY(b: Aabb, sinTheta: real, cosTheta: real)
    ensures var rb := RotatedBox(b, sinTheta, cosTheta);
            rb.min.y == Min(b.min.y, b.max.y) && rb.max.y == Max(b.min.y, b.max.y)
  {
    var cs := Corners(b, sinTheta, cosTheta);
    FoldFinite(cs);
    RotatedBoxContainsCorners(b, sinTheta, cosTheta, 0, 0, 0);
    RotatedBoxContainsCorners(b, sinTheta, cosTheta, 0, 1, 0);
    forall q | q in cs ensures q.y == b.min.y || q.y == b.max.y {
    }
  }

  /** Into object space and back to world space are mutual inverses when
      sin^2 + cos^2 = 1. */
  lemma {:induction false} RotationInverse(v: Vec3, sinTheta: real, cosTheta: real)
    requires sinTheta * sinTheta + cosTheta * cosTheta == 1.0
    ensures ToWorld(ToObject(v, sinTheta, cosTheta), sinTheta, cosTheta) == v
    ensures ToObject(ToWorld(v, sinTheta, cosTheta), sinTheta, cosTheta) == v
  {
    ObjectThenWorld(v, sinTheta, cosTheta);
    WorldThenObject(v, sinTheta, cosTheta);
  }

  lemma ObjectThenWorld(v: Vec3, s: real, c: real)
    requires s * s + c * c == 1.0
    ensures ToWorld(ToObject(v, s, c), s, c) == v
  {
    var o := ToObject(v, s, c);
    assert o.x == c * v.x - s * v.z && o.z == s * v.x + c * v.z;
    var w := ToWorld(o, s, c);
    assert w.x == c * o.x + s * o.z && w.z == -s * o.x + c * o.z;
    RotateBack(s, c, v.x, v.z, o.x, o.z);
  }

  lemma WorldThenObject(v: Vec3, s: real, c: real)
    requires s * s + c * c == 1.0
    ensures ToObject(ToWorld(v, s, c), s, c) == v
  {
    var o := ToWorld(v, s, c);
    assert o.x == c * v.x + s * v.z && o.z == -s * v.x + c * v.z;
    var w := ToObject(o, s, c);
    assert w.x == c * o.x - s * o.z && w.z == s * o.x + c * o.z;
    RotateForth(s, c, v.x, v.z, o.x, o.z);
  }

  /** Rotating (x, z) by the opposite angle and then by the angle gives (x, z) back. */
  lemma RotateForth(s: real, c: real, x: real, z: real, rx: real, rz: real)
    requires s * s + c * c == 1.0
    requires rx == c * x + s * z && rz == -s * x + c * z
    ensures c * rx - s * rz == x
    ensures s * rx + c * rz == z
  {
    assert c * rx - s * rz == (s * s + c * c) * x;
    assert s * rx + c * rz == (s * s + c * c) * z;
  }

  /** Rotating (x, z) by an angle and then by its opposite gives (x, z) back. */
  lemma RotateBack(s: real, c: real, x: real, z: real, rx: real, rz: real)
    requires s * s + c * c == 1.0
    requires rx == c * x - s * z && rz == s * x + c * z
    ensures c * rx + s * rz == x
    ensures -s * rx + c * rz == z
  {
    assert c * rx + s * rz == (s * s + c * c) * x;
    assert -s * rx + c * rz == (s * s + c * c) * z;
  }

  /** Rotating keeps the hit inside the interval when the child does. */
  lemma RotateKeepsRange(ry: RotateY)
    requires HitsInRange(ry.child)
    ensures HitsInRange(AsShape(ry))
  {
  }
}
