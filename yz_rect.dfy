/** `YzRect` (src/rt/shapes/yz_rect.rs): the rectangle [y0, y1] x [z0, z1] in the plane
    x = k, facing +x. */
module YzRects {
  import opened Floats
  import opened Vectors
  import opened Rays
  import opened Boxes
  import opened Materials
  import opened HitRecords
  import opened Hittables

  datatype YzRect = YzRect(y0: real, y1: real, z0: real, z1: real, k: real, material: Material)

  /** The ray parameter at which the ray meets the plane x = k. */
  function PlaneT(f: FloatOps, rect: YzRect, r: Ray): (t: real)
    ensures r.direction.x != 0.0 ==> r.origin.x + t * r.direction.x == rect.k
  {
    FDiv(f, rect.k - r.origin.x, r.direction.x)
  }

  /** (y, z) lies on the closed rectangle. */
  predicate OnRect(rect: YzRect, y: real, z: real) {
    rect.y0 <= y <= rect.y1 && rect.z0 <= z <= rect.z1
  }

  /** `hit`: `None` when the plane parameter is outside [t_min, t_max] or the point where
      the ray meets the plane is off the rectangle (the edges count as on it); otherwise
      the record at that parameter with the +x outward normal. */
  function Hit(f: FloatOps, rect: YzRect, r: Ray, tMin: Ext, tMax: Ext): (res: Option<HitRecord>)
  {
    var t := PlaneT(f, rect, r);
    if Lt(Fin(t), tMin) || Lt(tMax, Fin(t)) then None
    else
      var p := At(r, t);
      var y, z := p.y, p.z;
      if y < rect.y0 || y > rect.y1 || z < rect.z0 || z > rect.z1 then None
      else
        var u := FDiv(f, y - rect.y0, rect.y1 - rect.y0);
        var v := FDiv(f, z - rect.z0, rect.z1 - rect.z0);
        Some(HitRecords.New(p, t, u, v, r, Vec3(1.0, 0.0, 0.0), rect.material))
  }

  /** `bounding_box`: exact in y and z, padded by 0.0001 on either side of x = k. */
  function BoundingBox(rect: YzRect, time0: real, time1: real): (b: Option<Aabb>)
    ensures b.Some? && b.value.min.x < rect.k < b.value.max.x
    ensures b.value.min.y == rect.y0 && b.value.max.y == rect.y1
    ensures b.value.min.z == rect.z0 && b.value.max.z == rect.z1
    ensures b.value.min.x == rect.k - 0.0001 && b.value.max.x == rect.k + 0.0001
    ensures forall y, z :: OnRect(rect, y, z) ==> Inside(b.value, Vec3(rect.k, y, z))
  {
    Some(Aabb(Vec3(rect.k - 0.0001, rect.y0, rect.z0), Vec3(rect.k + 0.0001, rect.y1, rect.z1)))
  }

  /** The rectangle as a `Hittable`. */
  function AsShape(f: FloatOps, rect: YzRect): (s: Shape)
    ensures forall r, lo, hi :: s.hit(r, lo, hi) == Hit(f, rect, r, lo, hi)
    ensures forall t0, t1 :: s.boundingBox(t0, t1) == BoundingBox(rect, t0, t1)
  {
    Shape((r, lo, hi) => Hit(f, rect, r, lo, hi), (t0, t1) => BoundingBox(rect, t0, t1))
  }

  // ---------------------------------------------------------------- properties

  /** The rectangle is hit exactly when the plane crossing lies in the query interval and
      on the closed rectangle; the record is taken at that crossing. */
  lemma HitIffCrossing(f: FloatOps, rect: YzRect, r: Ray, tMin: Ext, tMax: Ext)
    ensures var t := PlaneT(f, rect, r);
            var p := At(r, t);
            (Hit(f, rect, r, tMin, tMax).Some? <==> InRange(t, tMin, tMax) && OnRect(rect, p.y, p.z)) &&
            (Hit(f, rect, r, tMin, tMax).Some? ==>
               Hit(f, rect, r, tMin, tMax).value.t == t && Hit(f, rect, r, tMin, tMax).value.p == p &&
               Hit(f, rect, r, tMin, tMax).value.material == rect.material)
  {
    var t := PlaneT(f, rect, r);
    var p := At(r, t);
    var h := Hit(f, rect, r, tMin, tMax);
    if InRange(t, tMin, tMax) && OnRect(rect, p.y, p.z) {
      var u := FDiv(f, p.y - rect.y0, rect.y1 - rect.y0);
      var v := FDiv(f, p.z - rect.z0, rect.z1 - rect.z0);
      assert h == Some(HitRecords.New(p, t, u, v, r, Vec3(1.0, 0.0, 0.0), rect.material));
    } else {
      assert h.None?;
    }
  }

  /** A hit lies in the query interval, on the rectangle and, for a ray not parallel to
      the plane, on the plane x = k. */
  lemma HitOnRect(f: FloatOps, rect: YzRect, r: Ray, tMin: Ext, tMax: Ext)
    requires Hit(f, rect, r, tMin, tMax).Some?
    ensures var rec := Hit(f, rect, r, tMin, tMax).value;
            InRange(rec.t, tMin, tMax) && OnRect(rect, rec.p.y, rec.p.z) &&
            (r.direction.x != 0.0 ==> rec.p.x == rect.k)
  {
    if r.direction.x != 0.0 {
      CrossingOnPlane(f, rect, r);
    }
  }

  /** A ray not parallel to the plane meets it at the plane parameter. */
  lemma CrossingOnPlane(f: FloatOps, rect: YzRect, r: Ray)
    requires r.direction.x != 0.0
    ensures At(r, PlaneT(f, rect, r)).x == rect.k
  {
    var t := PlaneT(f, rect, r);
    assert At(r, t).x == r.origin.x + t * r.direction.x;
  }

  /** Every hit of a ray not parallel to the plane lies inside the bounding box. */
  lemma HitInsideBox(f: FloatOps, rect: YzRect, r: Ray, tMin: Ext, tMax: Ext, time0: real, time1: real)
    requires r.direction.x != 0.0
    requires Hit(f, rect, r, tMin, tMax).Some?
    ensures Inside(BoundingBox(rect, time0, time1).value, Hit(f, rect, r, tMin, tMax).value.p)
  {
    HitOnRect(f, rect, r, tMin, tMax);
  }

  /** As a `Hittable`, the rectangle reports only hits inside the interval it is asked about. */
  lemma RectHitsInRange(f: FloatOps, rect: YzRect)
    ensures HitsInRange(AsShape(f, rect))
  {
    forall r, lo, hi | AsShape(f, rect).hit(r, lo, hi).Some?
      ensures InRange(AsShape(f, rect).hit(r, lo, hi).value.t, lo, hi)
    {
      HitOnRect(f, rect, r, lo, hi);
    }
  }

  /** On a rectangle with positive extent the texture coordinates lie in [0, 1]. */
  lemma {:induction false} UVInUnitSquare(f: FloatOps, rect: YzRect, r: Ray, tMin: Ext, tMax: Ext)
    requires rect.y0 < rect.y1 && rect.z0 < rect.z1
    requires Hit(f, rect, r, tMin, tMax).Some?
    ensures var rec := Hit(f, rect, r, tMin, tMax).value;
            0.0 <= rec.u <= 1.0 && 0.0 <= rec.v <= 1.0
  {
    var t := PlaneT(f, rect, r);
    var p := At(r, t);
    assert OnRect(rect, p.y, p.z);
    var rec := Hit(f, rect, r, tMin, tMax).value;
    assert rec.u == FDiv(f, p.y - rect.y0, rect.y1 - rect.y0);
    assert rec.v == FDiv(f, p.z - rect.z0, rect.z1 - rect.z0);
    UnitFraction(f, p.y - rect.y0, rect.y1 - rect.y0);
    UnitFraction(f, p.z - rect.z0, rect.z1 - rect.z0);
  }

  /** The normal is +x or -x, whichever faces the ray. */
  lemma NormalFacesRay(f: FloatOps, rect: YzRect, r: Ray, tMin: Ext, tMax: Ext)
    requires Hit(f, rect, r, tMin, tMax).Some?
    ensures var rec := Hit(f, rect, r, tMin, tMax).value;
            (rec.frontFace <==> r.direction.x < 0.0) &&
            rec.normal == (if r.direction.x < 0.0 then UNIT_X else Neg(UNIT_X))
  {
  }
}
