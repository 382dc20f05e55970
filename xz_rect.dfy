/** `XzRect` (src/rt/shapes/xz_rect.rs): the rectangle [x0, x1] x [z0, z1] in the plane
    y = k, facing +y. */
module XzRects {
  import opened Floats
  import opened Vectors
  import opened Rays
  import opened Boxes
  import opened Materials
  import opened HitRecords
  import opened Hittables
  import opened Sampling

  datatype XzRect = XzRect(x0: real, x1: real, z0: real, z1: real, k: real, material: Material)

  /** The ray parameter at which the ray meets the plane y = k. */
  function PlaneT(f: FloatOps, rect: XzRect, r: Ray): (t: real)
    ensures r.direction.y != 0.0 ==> r.origin.y + t * r.direction.y == rect.k
  {
    FDiv(f, rect.k - r.origin.y, r.direction.y)
  }

  /** (x, z) lies on the closed rectangle. */
  predicate OnRect(rect: XzRect, x: real, z: real) {
    rect.x0 <= x <= rect.x1 && rect.z0 <= z <= rect.z1
  }

  /** `hit`: `None` when the plane parameter is outside [t_min, t_max] or the point where
      the ray meets the plane is off the rectangle (the edges count as on it); otherwise
      the record at that parameter with the +y outward normal. */
  function Hit(f: FloatOps, rect: XzRect, r: Ray, tMin: Ext, tMax: Ext): (res: Option<HitRecord>)
  {
    var t := PlaneT(f, rect, r);
    if Lt(Fin(t), tMin) || Lt(tMax, Fin(t)) then None
    else
      var p := At(r, t);
      var x, z := p.x, p.z;
      if x < rect.x0 || x > rect.x1 || z < rect.z0 || z > rect.z1 then None
      else
        var u := FDiv(f, x - rect.x0, rect.x1 - rect.x0);
        var v := FDiv(f, z - rect.z0, rect.z1 - rect.z0);
        Some(HitRecords.New(p, t, u, v, r, Vec3(0.0, 1.0, 0.0), rect.material))
  }

  /** `bounding_box`: exact in x and z, padded by 0.0001 on either side of y = k. */
  function BoundingBox(rect: XzRect, time0: real, time1: real): (b: Option<Aabb>)
    ensures b.Some? && b.value.min.y < rect.k < b.value.max.y
    ensures b.value.min.x == rect.x0 && b.value.max.x == rect.x1
    ensures b.value.min.z == rect.z0 && b.value.max.z == rect.z1
    ensures b.value.min.y == rect.k - 0.0001 && b.value.max.y == rect.k + 0.0001
    ensures forall x, z :: OnRect(rect, x, z) ==> Inside(b.value, Vec3(x, rect.k, z))
  {
    Some(Aabb(Vec3(rect.x0, rect.k - 0.0001, rect.z0), Vec3(rect.x1, rect.k + 0.0001, rect.z1)))
  }

  /** The rectangle as a `Hittable`. */
  function AsShape(f: FloatOps, rect: XzRect): (s: Shape)
    ensures forall r, lo, hi :: s.hit(r, lo, hi) == Hit(f, rect, r, lo, hi)
    ensures forall t0, t1 :: s.boundingBox(t0, t1) == BoundingBox(rect, t0, t1)
  {
    Shape((r, lo, hi) => Hit(f, rect, r, lo, hi), (t0, t1) => BoundingBox(rect, t0, t1))
  }

  /** The area `(x1 - x0) * (z1 - z0)` that `pdf_value` divides by. */
  function Area(rect: XzRect): (a: real)
    ensures rect.x0 < rect.x1 && rect.z0 < rect.z1 ==> 0.0 < a
  {
    (rect.x1 - rect.x0) * (rect.z1 - rect.z0)
  }

  /** `|dot(v, n) / |v||`, the cosine between `v` and the hit normal. */
  function Cosine(f: FloatOps, v: Vec3, n: Vec3): (c: real)
    ensures 0.0 <= c
  {
    Abs(FDiv(f, Dot(v, n), Length(f, v)))
  }

  /** `pdf_value(origin, v)`: the light-sampling density of direction `v` seen from
      `origin` -- zero when the ray from `origin` along `v` (time 0, interval
      [0.001, +inf)) misses the rectangle, otherwise squared distance over cosine times
      area. */
  function PdfValue(f: FloatOps, rect: XzRect, origin: Vec3, v: Vec3): (pdf: real)
  {
    match Hit(f, rect, Ray(origin, v, 0.0), Fin(0.001), PosInf)
    case None => 0.0
    case Some(rec) => Density(f, rect, v, rec)
  }

  /** The hit branch of `pdf_value`: the squared distance `t^2 |v|^2` to the hit over
      cosine times area. */
  function Density(f: FloatOps, rect: XzRect, v: Vec3, rec: HitRecord): (pdf: real)
    ensures Cosine(f, v, rec.normal) * Area(rect) != 0.0 ==>
              pdf * (Cosine(f, v, rec.normal) * Area(rect)) == rec.t * rec.t * LengthSquared(v)
  {
    var distanceSquared := rec.t * rec.t * LengthSquared(v);
    FDiv(f, distanceSquared, Cosine(f, v, rec.normal) * Area(rect))
  }

  /** `random(origin)`: the vector from `origin` to a point drawn on the rectangle, with
      `x` from the first draw and `z` from the second. */
  function Random(rect: XzRect, origin: Vec3, d1: Unit, d2: Unit): (dir: Vec3)
    ensures var target := Add(origin, dir);
            target.y == rect.k &&
            (rect.x0 <= rect.x1 && rect.z0 <= rect.z1 ==> OnRect(rect, target.x, target.z)) &&
            (rect.x0 < rect.x1 ==> target.x < rect.x1) && (rect.z0 < rect.z1 ==> target.z < rect.z1)
  {
    Sub(Vec3(RandomBetween(rect.x0, rect.x1, d1), rect.k, RandomBetween(rect.z0, rect.z1, d2)), origin)
  }

  // ---------------------------------------------------------------- properties

  /** The rectangle is hit exactly when the plane crossing lies in the query interval and
      on the closed rectangle; the record is taken at that crossing. */
  lemma HitIffCrossing(f: FloatOps, rect: XzRect, r: Ray, tMin: Ext, tMax: Ext)
    ensures var t := PlaneT(f, rect, r);
            var p := At(r, t);
            (Hit(f, rect, r, tMin, tMax).Some? <==> InRange(t, tMin, tMax) && OnRect(rect, p.x, p.z)) &&
            (Hit(f, rect, r, tMin, tMax).Some? ==>
               Hit(f, rect, r, tMin, tMax).value.t == t && Hit(f, rect, r, tMin, tMax).value.p == p &&
               Hit(f, rect, r, tMin, tMax).value.material == rect.material)
  {
    var t := PlaneT(f, rect, r);
    var p := At(r, t);
    var h := Hit(f, rect, r, tMin, tMax);
    if InRange(t, tMin, tMax) && OnRect(rect, p.x, p.z) {
      var u := FDiv(f, p.x - rect.x0, rect.x1 - rect.x0);
      var v := FDiv(f, p.z - rect.z0, rect.z1 - rect.z0);
      assert h == Some(HitRecords.New(p, t, u, v, r, Vec3(0.0, 1.0, 0.0), rect.material));
    } else {
      assert h.None?;
    }
  }

  /** A hit lies in the query interval, on the rectangle and, for a ray not parallel to
      the plane, on the plane y = k. */
  lemma HitOnRect(f: FloatOps, rect: XzRect, r: Ray, tMin: Ext, tMax: Ext)
    requires Hit(f, rect, r, tMin, tMax).Some?
    ensures var rec := Hit(f, rect, r, tMin, tMax).value;
            InRange(rec.t, tMin, tMax) && OnRect(rect, rec.p.x, rec.p.z) &&
            (r.direction.y != 0.0 ==> rec.p.y == rect.k)
  {
    if r.direction.y != 0.0 {
      CrossingOnPlane(f, rect, r);
    }
  }

  /** A ray not parallel to the plane meets it at the plane parameter. */
  lemma CrossingOnPlane(f: FloatOps, rect: XzRect, r: Ray)
    requires r.direction.y != 0.0
    ensures At(r, PlaneT(f, rect, r)).y == rect.k
  {
    var t := PlaneT(f, rect, r);
    assert At(r, t).y == r.origin.y + t * r.direction.y;
  }

  /** Every hit of a ray not parallel to the plane lies inside the bounding box. */
  lemma HitInsideBox(f: FloatOps, rect: XzRect, r: Ray, tMin: Ext, tMax: Ext, time0: real, time1: real)
    requires r.direction.y != 0.0
    requires Hit(f, rect, r, tMin, tMax).Some?
    ensures Inside(BoundingBox(rect, time0, time1).value, Hit(f, rect, r, tMin, tMax).value.p)
  {
    HitOnRect(f, rect, r, tMin, tMax);
  }

  /** As a `Hittable`, the rectangle reports only hits inside the interval it is asked about. */
  lemma RectHitsInRange(f: FloatOps, rect: XzRect)
    ensures HitsInRange(AsShape(f, rect))
  {
    forall r, lo, hi | AsShape(f, rect).hit(r, lo, hi).Some?
      ensures InRange(AsShape(f, rect).hit(r, lo, hi).value.t, lo, hi)
    {
      HitOnRect(f, rect, r, lo, hi);
    }
  }

  /** On a rectangle with positive extent the texture coordinates lie in [0, 1]. */
  lemma {:induction false} UVInUnitSquare(f: FloatOps, rect: XzRect, r: Ray, tMin: Ext, tMax: Ext)
    requires rect.x0 < rect.x1 && rect.z0 < rect.z1
    requires Hit(f, rect, r, tMin, tMax).Some?
    ensures var rec := Hit(f, rect, r, tMin, tMax).value;
            0.0 <= rec.u <= 1.0 && 0.0 <= rec.v <= 1.0
  {
    var t := PlaneT(f, rect, r);
    var p := At(r, t);
    assert OnRect(rect, p.x, p.z);
    var rec := Hit(f, rect, r, tMin, tMax).value;
    assert rec.u == FDiv(f, p.x - rect.x0, rect.x1 - rect.x0);
    assert rec.v == FDiv(f, p.z - rect.z0, rect.z1 - rect.z0);
    UnitFraction(f, p.x - rect.x0, rect.x1 - rect.x0);
    UnitFraction(f, p.z - rect.z0, rect.z1 - rect.z0);
  }

  /** The normal is +y or -y, whichever faces the ray. */
  lemma NormalFacesRay(f: FloatOps, rect: XzRect, r: Ray, tMin: Ext, tMax: Ext)
    requires Hit(f, rect, r, tMin, tMax).Some?
    ensures var rec := Hit(f, rect, r, tMin, tMax).value;
            (rec.frontFace <==> r.direction.y < 0.0) &&
            rec.normal == (if r.direction.y < 0.0 then UNIT_Y else Neg(UNIT_Y))
  {
  }

  /** The density is zero for directions whose ray misses and the hit branch's quotient
      for the others. */
  lemma PdfValueCases(f: FloatOps, rect: XzRect, origin: Vec3, v: Vec3)
    ensures var h := Hit(f, rect, Ray(origin, v, 0.0), Fin(0.001), PosInf);
            && (h.None? ==> PdfValue(f, rect, origin, v) == 0.0)
            && (h.Some? ==> PdfValue(f, rect, origin, v) == Density(f, rect, v, h.value))
  {
  }

  /** On a rectangle of positive extent the density is never negative (the unspecified
      quotient of a zero cosine aside). */
  lemma {:induction false} PdfValueNonNegative(f: FloatOps, rect: XzRect, origin: Vec3, v: Vec3)
    requires rect.x0 < rect.x1 && rect.z0 < rect.z1
    requires var h := Hit(f, rect, Ray(origin, v, 0.0), Fin(0.001), PosInf);
             h.Some? ==> Cosine(f, v, h.value.normal) != 0.0
    ensures 0.0 <= PdfValue(f, rect, origin, v)
  {
    var h := Hit(f, rect, Ray(origin, v, 0.0), Fin(0.001), PosInf);
    PdfValueCases(f, rect, origin, v);
    if h.Some? {
      DensityNonNegative(f, rect, v, h.value);
    }
  }

  /** The hit branch's quotient is non-negative when its divisor is not zero. */
  lemma DensityNonNegative(f: FloatOps, rect: XzRect, v: Vec3, rec: HitRecord)
    requires rect.x0 < rect.x1 && rect.z0 < rect.z1 && Cosine(f, v, rec.normal) != 0.0
    ensures 0.0 <= Density(f, rect, v, rec)
  {
    LengthSquaredNonNeg(v);
    QuotientNonNegative(Density(f, rect, v, rec), Cosine(f, v, rec.normal), Area(rect), rec.t, LengthSquared(v));
  }

  /** `p (c a) = t^2 ls` with positive `c`, `a` and non-negative `ls` makes `p` non-negative. */
  lemma QuotientNonNegative(p: real, c: real, a: real, t: real, ls: real)
    requires 0.0 < c && 0.0 < a && 0.0 <= ls
    requires c * a != 0.0 ==> p * (c * a) == t * t * ls
    ensures 0.0 <= p
  {
    var m, d := c * a, t * t * ls;
    MulPos(c, a);
    SquareTimesNonNegative(t, ls);
    NonNegativeFactor(p, m, d);
  }

  lemma NonNegativeFactor(p: real, m: real, d: real)
    requires p * m == d && 0.0 < m && 0.0 <= d
    ensures 0.0 <= p
  {
    if p < 0.0 {
      MulLtMono(p, 0.0, m);
    }
  }

  lemma SquareTimesNonNegative(t: real, x: real)
    requires 0.0 <= x
    ensures 0.0 <= t * t * x
  {
    MulLeMono(0.0, t * t, x);
  }
}
