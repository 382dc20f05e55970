/** `FlipFace` (src/rt/shapes/flip_face.rs): wraps an object and reports every hit on
    the opposite face. */
module FlipFaces {
  import opened Floats
  import opened Rays
  import opened Boxes
  import opened HitRecords
  import opened Hittables

  datatype FlipFace = FlipFace(child: Shape)

  /** `hit`: the child's record with `front_face` negated; a child miss is a miss. */
  function Hit(ff: FlipFace, r: Ray, tMin: Ext, tMax: Ext): (res: Option<HitRecord>)
    ensures res.None? <==> ff.child.hit(r, tMin, tMax).None?
    ensures res.Some? ==>
      var rec := ff.child.hit(r, tMin, tMax).value;
      res.value.frontFace == !rec.frontFace &&
      res.value == rec.(frontFace := res.value.frontFace)
  {
    match ff.child.hit(r, tMin, tMax)
    case None => None
    case Some(rec) => Some(rec.(frontFace := !rec.frontFace))
  }

  /** `bounding_box`: the child's box for the same times. */
  function BoundingBox(ff: FlipFace, time0: real, time1: real): (b: Option<Aabb>)
    ensures b == ff.child.boundingBox(time0, time1)
  {
    ff.child.boundingBox(time0, time1)
  }

  /** The flipped object seen through the `Hittable` interface. */
  function AsShape(ff: FlipFace): (s: Shape)
    ensures forall r, lo, hi :: s.hit(r, lo, hi) == Hit(ff, r, lo, hi)
    ensures forall t0, t1 :: s.boundingBox(t0, t1) == BoundingBox(ff, t0, t1)
  {
    Shape((r, lo, hi) => Hit(ff, r, lo, hi), (t0, t1) => BoundingBox(ff, t0, t1))
  }

  // ---------------------------------------------------------------- properties

  /** Flipping twice gives back the child's record exactly. */
  lemma FlipTwice(s: Shape, r: Ray, tMin: Ext, tMax: Ext)
    ensures Hit(FlipFace(AsShape(FlipFace(s))), r, tMin, tMax) == s.hit(r, tMin, tMax)
  {
  }

  /** Flipping keeps the hit inside the interval when the child does. */
  lemma FlipKeepsRange(ff: FlipFace)
    requires HitsInRange(ff.child)
    ensures HitsInRange(AsShape(ff))
  {
  }
}
