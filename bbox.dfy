/** `Bbox` (src/rt/shapes/bbox.rs): an axis-aligned box made of six rectangles kept in a
    `HittableList`. */
module Bboxes {
  import opened Floats
  import opened Vectors
  import opened Rays
  import opened Boxes
  import opened Materials
  import opened HitRecords
  import HittableLists
  import XyRects
  import XzRects
  import YzRects

  /** One face of the box: the list holds rectangles of the three orientations. */
  datatype Side = XySide(xy: XyRects.XyRect) | XzSide(xz: XzRects.XzRect) | YzSide(yz: YzRects.YzRect)

  /** How a side answers a hit query (its own `hit`). */
  function SideHit(f: FloatOps): (Side, Ray, Ext, Ext) -> Option<HitRecord> {
    (s: Side, r: Ray, lo: Ext, hi: Ext) =>
      match s
      case XySide(q) => XyRects.Hit(f, q, r, lo, hi)
      case XzSide(q) => XzRects.Hit(f, q, r, lo, hi)
      case YzSide(q) => YzRects.Hit(f, q, r, lo, hi)
  }

  /** Every side reports only hits inside the interval it is asked about. */
  lemma SidesHitInRange(f: FloatOps)
    ensures HittableLists.HitsInRange(SideHit(f))
  {
    forall s, r, lo, hi | SideHit(f)(s, r, lo, hi).Some?
      ensures InRange(SideHit(f)(s, r, lo, hi).value.t, lo, hi)
    {
      if s.XySide? {
        XyRects.HitOnRect(f, s.xy, r, lo, hi);
      } else if s.XzSide? {
        XzRects.HitOnRect(f, s.xz, r, lo, hi);
      } else {
        YzRects.HitOnRect(f, s.yz, r, lo, hi);
      }
    }
  }

  /** The material a side carries. */
  function SideMaterial(s: Side): Material {
    match s
    case XySide(q) => q.material
    case XzSide(q) => q.material
    case YzSide(q) => q.material
  }

  /** The side spans `p0..p1` on its two free axes and lies in the plane of one of the
      two faces of the box on its third axis. */
  predicate Spans(s: Side, p0: Vec3, p1: Vec3) {
    match s
    case XySide(q) => q.x0 == p0.x && q.x1 == p1.x && q.y0 == p0.y && q.y1 == p1.y && (q.k == p0.z || q.k == p1.z)
    case XzSide(q) => q.x0 == p0.x && q.x1 == p1.x && q.z0 == p0.z && q.z1 == p1.z && (q.k == p0.y || q.k == p1.y)
    case YzSide(q) => q.y0 == p0.y && q.y1 == p1.y && q.z0 == p0.z && q.z1 == p1.z && (q.k == p0.x || q.k == p1.x)
  }

  /** The six sides in the order `new` pushes them: XY at p1.z then p0.z, XZ at p1.y then
      p0.y, YZ at p1.x then p0.x. */
  function Sides(p0: Vec3, p1: Vec3, m: Material): (sides: seq<Side>)
    ensures |sides| == 6
    ensures forall i | 0 <= i < 6 :: SideMaterial(sides[i]) == m && Spans(sides[i], p0, p1)
  {
    [XySide(XyRects.XyRect(p0.x, p1.x, p0.y, p1.y, p1.z, m)),
     XySide(XyRects.XyRect(p0.x, p1.x, p0.y, p1.y, p0.z, m)),
     XzSide(XzRects.XzRect(p0.x, p1.x, p0.z, p1.z, p1.y, m)),
     XzSide(XzRects.XzRect(p0.x, p1.x, p0.z, p1.z, p0.y, m)),
     YzSide(YzRects.YzRect(p0.y, p1.y, p0.z, p1.z, p1.x, m)),
     YzSide(YzRects.YzRect(p0.y, p1.y, p0.z, p1.z, p0.x, m))]
  }

  class Bbox {
    const min: Vec3
    const max: Vec3
    const sides: HittableLists.HittableList<Side>
    /** The material given to `new` (the source keeps it only inside the sides). */
    ghost const material: Material

    /** The list holds exactly the six sides of `[min, max]`. */
    ghost predicate Valid()
      reads sides
    {
      sides.objects == Sides(min, max, material)
    }

    /** `Bbox::new(p0, p1, material)`: pushes the six sides into a fresh list. */
    constructor New(p0: Vec3, p1: Vec3, material: Material)
      ensures min == p0 && max == p1 && this.material == material
      ensures fresh(sides) && Valid()
    {
      var list := new HittableLists.HittableList.Empty();
      list.Add(XySide(XyRects.XyRect(p0.x, p1.x, p0.y, p1.y, p1.z, material)));
      list.Add(XySide(XyRects.XyRect(p0.x, p1.x, p0.y, p1.y, p0.z, material)));
      list.Add(XzSide(XzRects.XzRect(p0.x, p1.x, p0.z, p1.z, p1.y, material)));
      list.Add(XzSide(XzRects.XzRect(p0.x, p1.x, p0.z, p1.z, p0.y, material)));
      list.Add(YzSide(YzRects.YzRect(p0.y, p1.y, p0.z, p1.z, p1.x, material)));
      list.Add(YzSide(YzRects.YzRect(p0.y, p1.y, p0.z, p1.z, p0.x, material)));
      min := p0;
      max := p1;
      sides := list;
      this.material := material;
    }

    /** `hit`: the sides list's closest hit, which lies in `[t_min, t_max]`. */
    method Hit(f: FloatOps, r: Ray, tMin: Ext, tMax: Ext) returns (res: Option<HitRecord>)
      requires Valid()
      ensures res == HittableLists.ClosestHit(Sides(min, max, material), SideHit(f), r, tMin, tMax)
      ensures res.Some? ==> InRange(res.value.t, tMin, tMax)
    {
      res := sides.Hit(SideHit(f), r, tMin, tMax);
      SidesHitInRange(f);
      HittableLists.ClosestInRange(sides.objects, SideHit(f), r, tMin, tMax);
    }

    /** `bounding_box`: the two corners as given, unpadded, whatever the times. */
    function BoundingBox(time0: real, time1: real): (b: Option<Aabb>)
      ensures b.Some? && b.value.min == min && b.value.max == max
    {
      Some(Aabb(min, max))
    }
  }

  /** A hit of the box by a ray that is parallel to none of the faces lies on the closed
      box `[p0, p1]` (for `p0 <= p1` componentwise). */
  lemma {:induction false} HitOnBox(f: FloatOps, p0: Vec3, p1: Vec3, m: Material, r: Ray, tMin: Ext, tMax: Ext)
    requires p0.x <= p1.x && p0.y <= p1.y && p0.z <= p1.z
    requires r.direction.x != 0.0 && r.direction.y != 0.0 && r.direction.z != 0.0
    requires HittableLists.ClosestHit(Sides(p0, p1, m), SideHit(f), r, tMin, tMax).Some?
    ensures Inside(Aabb(p0, p1), HittableLists.ClosestHit(Sides(p0, p1, m), SideHit(f), r, tMin, tMax).value.p)
  {
    var sides := Sides(p0, p1, m);
    var res := HittableLists.ClosestHit(sides, SideHit(f), r, tMin, tMax);
    HittableLists.ClosestFromMember(sides, SideHit(f), r, tMin, tMax);
    var i, hi :| 0 <= i < |sides| && SideHit(f)(sides[i], r, tMin, hi) == res;
    SideHitOnBox(f, sides[i], p0, p1, r, tMin, hi);
  }

  /** A hit of one side that spans the box lies on the closed box. */
  lemma SideHitOnBox(f: FloatOps, s: Side, p0: Vec3, p1: Vec3, r: Ray, tMin: Ext, hi: Ext)
    requires p0.x <= p1.x && p0.y <= p1.y && p0.z <= p1.z
    requires r.direction.x != 0.0 && r.direction.y != 0.0 && r.direction.z != 0.0
    requires Spans(s, p0, p1) && SideHit(f)(s, r, tMin, hi).Some?
    ensures Inside(Aabb(p0, p1), SideHit(f)(s, r, tMin, hi).value.p)
  {
    match s
    case XySide(q) => XyRects.HitOnRect(f, q, r, tMin, hi);
    case XzSide(q) => XzRects.HitOnRect(f, q, r, tMin, hi);
    case YzSide(q) => YzRects.HitOnRect(f, q, r, tMin, hi);
  }
}
