/** `XyRect` (src/rt/shapes/xy_rect.rs): the rectangle [x0, x1] x [y0, y1] in the plane
    z = k, facing +z. */
module XyRects {
  import opened Floats
  import opened Vectors
  import opened Rays
  import opened Boxes
  import opened Materials
  import opened HitRecords
  import opened Hittables

  datatype XyRect = XyRect(x0: real, x1: real, y0: real, y1: real, k: real, material: Material)

  /** The ray parameter at which the ray meets the plane z = k. */
  function PlaneT(f: FloatOps, rect: XyRect, r: Ray): (t: real)
    ensures r.direction.z != 0.0 ==> r.origin.z + t * r.direction.z == rect.k
  {
    FDiv(f, rect.k - r.origin.z, r.direction.z)
  }

  /** (x, y) lies on the closed rectangle. */
  predicate OnRect(rect: XyRect, x: real, y: real) {
    rect.x0 <= x <= rect.x1 && rect.y0 <= y <= rect.y1
  }

  /** `hit`: `None` when the plane parameter is outside [t_min, t_max] or the point where
      the ray meets the plane is off the rectangle (the edges count as on it); otherwise
      the record at that parameter with the +z outward normal. */
  function Hit(f: FloatOps, rect: XyRect, r: Ray, tMin: Ext, tMax: Ext): (res: Option<HitRecord>)
  {
    var t := PlaneT(f, rect, r);
    if Lt(Fin(t), tMin) || Lt(tMax, Fin(t)) then None
    else
      var p := At(r, t);
      var x, y := p.x, p.y;
      if x < rect.x0 || x > rect.x1 || y < rect.y0 || y > rect.y1 then None
      else
        var u := FDiv(f, x - rect.x0, rect.x1 - rect.x0);
        var v := FDiv(f, y - rect.y0, rect.y1 - rect.y0);
        Some(HitRecords.New(p, t, u, v, r, Vec3(0.0, 0.0, 1.0), rect.material))
  }

  /** `bounding_box`: exact in x and y, padded by 0.0001 on either side of z = k. */
  function BoundingBox(rect: XyRect, time0: real, time1: real): (b: Option<Aabb>)
    ensures b.Some? && b.value.min.z < rect.k < b.value.max.z
    ensures b.value.min.x == rect.x0 && b.value.max.x == rect.x1
    ensures b.value.min.y == rect.y0 && b.value.max.y == rect.y1
    ensures b.value.min.z == rect.k - 0.0001 && b.value.max.z == rect.k + 0.0001
    ensures forall x, y :: OnRect(rect, x, y) ==> Inside(b.value, Vec3(x, y, rect.k))
  {
    Some(Aabb(Vec3(rect.x0, rect.y0, rect.k - 0.0001), Vec3(rect.x1, rect.y1, rect.k + 0.0001)))
  }

  /** The rectangle as a `Hittable`. */
  function AsShape(f: FloatOps, rect: XyRect): (s: Shape)
    ensures forall r, lo, hi :: s.hit(r, lo, hi) == Hit(f, rect, r, lo, hi)
    ensures forall t0, t1 :: s.boundingBox(t0, t1) == BoundingBox(rect, t0, t1)
  {
    Shape((r, lo, hi) => Hit(f, rect, r, lo, hi), (t0, t1) => BoundingBox(rect, t0, t1))
  }

  // ---------------------------------------------------------------- properties

  /** The rectangle is hit exactly when the plane crossing lies in the query interval and
      on the closed rectangle; the record is taken at that crossing. */
  lemma HitIffCrossing(f: FloatOps, rect: XyRect, r: Ray, tMin: Ext, tMax: Ext)
    ensures var t := PlaneT(f, rect, r);
            var p := At(r, t);
            (Hit(f, rect, r, tMin, tMax).Some? <==> InRange(t, tMin, tMax) && OnRect(rect, p.x, p.y)) &&
            (Hit(f, rect, r, tMin, tMax).Some? ==>
               Hit(f, rect, r, tMin, tMax).value.t == t && Hit(f, rect, r, tMin, tMax).value.p == p &&
               Hit(f, rect, r, tMin, tMax).value.material == rect.material)
  {
    var t := PlaneT(f, rect, r);
    var p := At(r, t);
    var h := Hit(f, rect, r, tMin, tMax);
    if InRange(t, tMin, tMax) && OnRect(rect, p.x, p.y) {
      var u := FDiv(f, p.x - rect.x0, rect.x1 - rect.x0);
      var v := FDiv(f, p.y - rect.y0, rect.y1 - rect.y0);
      assert h == Some(HitRecords.New(p, t, u, v, r, Vec3(0.0, 0.0, 1.0), rect.material));
    } else {
      assert h.None?;
    }
  }

  /** A hit lies in the query interval, on the rectangle and, for a ray not parallel to
      the plane, on the plane z = k. */
  lemma HitOnRect(f: FloatOps, rect: XyRect, r: Ray, tMin: Ext, tMax: Ext)
    requires Hit(f, rect, r, tMin, tMax).Some?
    ensures var rec := Hit(f, rect, r, tMin, tMax).value;
            InRange(rec.t, tMin, tMax) && OnRect(rect, rec.p.x, rec.p.y) &&
            (r.direction.z != 0.0 ==> rec.p.z == rect.k)
  {
    if r.direction.z != 0.0 {
      CrossingOnPlane(f, rect, r);
    }
  }

  /** A ray not parallel to the plane meets it at the plane parameter. */
  lemma CrossingOnPlane(f: FloatOps, rect: XyRect, r: Ray)
    requires r.direction.z != 0.0
    ensures At(r, PlaneT(f, rect, r)).z == rect.k
  {
    var t := PlaneT(f, rect, r);
    assert At(r, t).z == r.origin.z + t * r.direction.z;
  }

  /** Every hit of a ray not parallel to the plane lies inside the bounding box. */
  lemma HitInsideBox(f: FloatOps, rect: XyRect, r: Ray, tMin: Ext, tMax: Ext, time0: real, time1: real)
    requires r.direction.z != 0.0
    requires Hit(f, rect, r, tMin, tMax).Some?
    ensures Inside(BoundingBox(rect, time0, time1).value, Hit(f, rect, r, tMin, tMax).value.p)
  {
    HitOnRect(f, rect, r, tMin, tMax);
  }

  /** As a `Hittable`, the rectangle reports only hits inside the interval it is asked about. */
  lemma RectHitsInRange(f: FloatOps, rect: XyRect)
    ensures HitsInRange(AsShape(f, rect))
  {
    forall r, lo, hi | AsShape(f, rect).hit(r, lo, hi).Some?
      ensures InRange(AsShape(f, rect).hit(r, lo, hi).value.t, lo, hi)
    {
      HitOnRect(f, rect, r, lo, hi);
    }
  }

  /** On a rectangle with positive extent the texture coordinates lie in [0, 1]. */
  lemma {:induction false} UVInUnitSquare(f: FloatOps, rect: XyRect, r: Ray, tMin: Ext, tMax: Ext)
    requires rect.x0 < rect.x1 && rect.y0 < rect.y1
    requires Hit(f, rect, r, tMin, tMax).Some?
    ensures var rec := Hit(f, rect, r, tMin, tMax).value;
            0.0 <= rec.u <= 1.0 && 0.0 <= rec.v <= 1.0
  {
    var t := PlaneT(f, rect, r);
    var p := At(r, t);
    assert OnRect(rect, p.x, p.y);
    var rec := Hit(f, rect, r, tMin, tMax).value;
    assert rec.u == FDiv(f, p.x - rect.x0, rect.x1 - rect.x0);
    assert rec.v == FDiv(f, p.y - rect.y0, rect.y1 - rect.y0);
    UnitFraction(f, p.x - rect.x0, rect.x1 - rect.x0);
    UnitFraction(f, p.y - rect.y0, rect.y1 - rect.y0);
  }

  /** The normal is +z or -z, whichever faces the ray. */
  lemma NormalFacesRay(f: FloatOps, rect: XyRect, r: Ray, tMin: Ext, tMax: Ext)
    requires Hit(f, rect, r, tMin, tMax).Some?
    ensures var rec := Hit(f, rect, r, tMin, tMax).value;
            (rec.frontFace <==> r.direction.z < 0.0) &&
            rec.normal == (if r.direction.z < 0.0 then UNIT_Z else Neg(UNIT_Z))
  {
  }
}
