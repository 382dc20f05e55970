/** `Translate` (src/rt/shapes/translate.rs): an object moved by a fixed offset. */
module Translates {
  import opened Floats
  import opened Vectors
  import opened Rays
  import opened Boxes
  import opened HitRecords
  import opened Hittables

  datatype Translate = Translate(child: Shape, offset: Vec3)

  /** The query ray moved into the child's frame: origin minus the offset, same
      direction and time. */
  function MovedRay(r: Ray, offset: Vec3): (moved: Ray)
    ensures Add(moved.origin, offset) == r.origin
    ensures moved.direction == r.direction && moved.time == r.time
  {
    Ray(Sub(r.origin, offset), r.direction, r.time)
  }

  /** `hit`: queries the child with the moved ray and the same interval, moves the hit
      point back by the offset and re-orients the child's (already oriented) normal
      against the moved ray. */
  function Hit(tr: Translate, r: Ray, tMin: Ext, tMax: Ext): (res: Option<HitRecord>)
    ensures var child := tr.child.hit(MovedRay(r, tr.offset), tMin, tMax);
            (res.None? <==> child.None?) &&
            (res.Some? ==>
              res.value.t == child.value.t && res.value.u == child.value.u &&
              res.value.v == child.value.v && res.value.material == child.value.material &&
              res.value.p == Add(child.value.p, tr.offset) &&
              FaceNormal(res.value.frontFace, res.value.normal)
                == GetFaceNormal(MovedRay(r, tr.offset), child.value.normal))
  {
    var moved := MovedRay(r, tr.offset);
    match tr.child.hit(moved, tMin, tMax)
    case None => None
    case Some(rec) =>
      var shifted := rec.(p := Add(rec.p, tr.offset));
      Some(SetFaceNormal(shifted, moved, shifted.normal))
  }

  /** `bounding_box`: the child's box with both corners shifted by the offset. */
  function BoundingBox(tr: Translate, time0: real, time1: real): (b: Option<Aabb>)
    ensures b.None? <==> tr.child.boundingBox(time0, time1).None?
    ensures b.Some? ==>
      var c := tr.child.boundingBox(time0, time1).value;
      Sub(b.value.min, tr.offset) == c.min && Sub(b.value.max, tr.offset) == c.max
  {
    match tr.child.boundingBox(time0, time1)
    case None => None
    case Some(c) => Some(Aabb(Add(c.min, tr.offset), Add(c.max, tr.offset)))
  }

  function AsShape(tr: Translate): (s: Shape)
    ensures forall r, lo, hi :: s.hit(r, lo, hi) == Hit(tr, r, lo, hi)
    ensures forall t0, t1 :: s.boundingBox(t0, t1) == BoundingBox(tr, t0, t1)
  {
    Shape((r, lo, hi) => Hit(tr, r, lo, hi), (t0, t1) => BoundingBox(tr, t0, t1))
  }

  // ---------------------------------------------------------------- properties

  /** A child hit point on the moved ray becomes the point at the same `t` on the
      original ray. */
  lemma HitPointOnRay(tr: Translate, r: Ray, tMin: Ext, tMax: Ext)
    requires var child := tr.child.hit(MovedRay(r, tr.offset), tMin, tMax);
             child.Some? ==> child.value.p == At(MovedRay(r, tr.offset), child.value.t)
    ensures var res := Hit(tr, r, tMin, tMax);
            res.Some? ==> res.value.p == At(r, res.value.t)
  {
  }

  /** When the child's normal strictly opposes the direction, the translated hit is a
      front-face hit with the same normal; a grazing or back normal is negated and the
      hit counts as a back-face hit. */
  lemma FrontFaceRecomputed(tr: Translate, r: Ray, tMin: Ext, tMax: Ext)
    ensures var child := tr.child.hit(MovedRay(r, tr.offset), tMin, tMax);
            var res := Hit(tr, r, tMin, tMax);
            child.Some? ==>
              (res.value.frontFace <==> Dot(r.direction, child.value.normal) < 0.0) &&
              (Dot(r.direction, child.value.normal) < 0.0 ==> res.value.normal == child.value.normal)
  {
  }

  /** Translating keeps the hit inside the interval when the child does. */
  lemma TranslateKeepsRange(tr: Translate)
    requires HitsInRange(tr.child)
    ensures HitsInRange(AsShape(tr))
  {
  }

  /** The translated box has the child's extent. */
  lemma ExtentUnchanged(tr: Translate, time0: real, time1: real)
    requires tr.child.boundingBox(time0, time1).Some?
    ensures var b := BoundingBox(tr, time0, time1).value;
            var c := tr.child.boundingBox(time0, time1).value;
            Sub(b.max, b.min) == Sub(c.max, c.min)
  {
  }
}
