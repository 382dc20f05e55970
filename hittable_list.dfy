/** `HittableList` (src/rt/shapes/hittable_list.rs): a growable list of objects that
    is itself hittable. The list is generic in its objects; how one obj answers a
    hit query or reports its box is passed in as `hitOf` / `boxOf`. */
module HittableLists {
  import opened Floats
  import opened Vectors
  import opened Rays
  import opened Boxes
  import opened HitRecords

  class HittableList<T> {
    var objects: seq<T>

    /** `HittableList::default()`. */
    constructor Empty()
      ensures objects == []
    {
      objects := [];
    }

    /** `new_from_object`. */
    constructor FromObject(obj: T)
      ensures objects == [obj]
    {
      objects := [obj];
    }

    /** `new_from_objects`. */
    constructor FromObjects(objects: seq<T>)
      ensures this.objects == objects
    {
      this.objects := objects;
    }

    /** `clear`. */
    method Clear()
      modifies this
      ensures objects == []
    {
      objects := [];
    }

    /** `add`: appends at the end; earlier members keep their positions. */
    method Add(obj: T)
      modifies this
      ensures objects == old(objects) + [obj]
      ensures |objects| == |old(objects)| + 1 && objects[..|old(objects)|] == old(objects)
    {
      objects := objects + [obj];
    }

    /** `hit`: one pass over the members, each asked about `[t_min, closest_so_far]`,
        where `closest_so_far` is the `t` of the latest hit. */
    method Hit(hitOf: (T, Ray, Ext, Ext) -> Option<HitRecord>, r: Ray, tMin: Ext, tMax: Ext)
      returns (closestHit: Option<HitRecord>)
      ensures closestHit == ClosestHit(objects, hitOf, r, tMin, tMax)
    {
      closestHit := None;
      var closestSoFar := tMax;
      var i := 0;
      while i < |objects|
        invariant 0 <= i <= |objects|
        invariant closestHit == ClosestHit(objects[..i], hitOf, r, tMin, tMax)
        invariant closestSoFar == Bound(closestHit, tMax)
      {
        assert objects[..i + 1][..i] == objects[..i];
        var hit := hitOf(objects[i], r, tMin, closestSoFar);
        if hit.Some? {
          closestSoFar := Fin(hit.value.t);
          closestHit := hit;
        }
        i := i + 1;
      }
      assert objects[..i] == objects;
    }

    /** `bounding_box`: `None` for an empty list or as soon as one member has no box,
        otherwise the surrounding box of all members' boxes. */
    method BoundingBox(boxOf: (T, real, real) -> Option<Aabb>, time0: real, time1: real)
      returns (result: Option<Aabb>)
      ensures result == ListBox(objects, boxOf, time0, time1)
    {
      if |objects| == 0 {
        return None;
      }
      var head := boxOf(objects[0], time0, time1);
      if head.None? {
        assert objects[..1] == [objects[0]];
        NoneAbsorbs(objects, 1, boxOf, time0, time1);
        return None;
      }
      var outputBox := head.value;
      var i := 1;
      assert objects[..1] == [objects[0]];
      while i < |objects|
        invariant 1 <= i <= |objects|
        invariant ListBox(objects[..i], boxOf, time0, time1) == Some(outputBox)
      {
        assert objects[..i + 1][..i] == objects[..i];
        var tailBox := boxOf(objects[i], time0, time1);
        if tailBox.None? {
          NoneAbsorbs(objects, i + 1, boxOf, time0, time1);
          return None;
        }
        outputBox := SurroundingBox(outputBox, tailBox.value);
        i := i + 1;
      }
      assert objects[..i] == objects;
      return Some(outputBox);
    }
  }

  // ---------------------------------------------------------------- specification

  /** The upper bound of the next query: the latest hit's `t`, or `t_max` before any. */
  function Bound(closest: Option<HitRecord>, tMax: Ext): Ext {
    if closest.Some? then Fin(closest.value.t) else tMax
  }

  /** The result of the scan over `objs`, member by member. */
  function ClosestHit<T>(objs: seq<T>, hitOf: (T, Ray, Ext, Ext) -> Option<HitRecord>,
                         r: Ray, tMin: Ext, tMax: Ext): (res: Option<HitRecord>)
    ensures |objs| == 0 ==> res.None?
  {
    if |objs| == 0 then None
    else
      var before := ClosestHit(objs[..|objs| - 1], hitOf, r, tMin, tMax);
      var hit := hitOf(objs[|objs| - 1], r, tMin, Bound(before, tMax));
      if hit.Some? then hit else before
  }

  /** The folded box of `objs`: the first member's box, widened by each later one. */
  function ListBox<T>(objs: seq<T>, boxOf: (T, real, real) -> Option<Aabb>,
                      time0: real, time1: real): (res: Option<Aabb>)
    ensures |objs| == 0 ==> res.None?
  {
    if |objs| == 0 then None
    else if |objs| == 1 then boxOf(objs[0], time0, time1)
    else
      match ListBox(objs[..|objs| - 1], boxOf, time0, time1)
      case None => None
      case Some(b) =>
        match boxOf(objs[|objs| - 1], time0, time1)
        case None => None
        case Some(tail) => Some(SurroundingBox(b, tail))
  }

  /** Members answer only inside the interval they are given. */
  ghost predicate HitsInRange<T(!new)>(hitOf: (T, Ray, Ext, Ext) -> Option<HitRecord>) {
    forall o, r, lo, hi :: hitOf(o, r, lo, hi).Some? ==> InRange(hitOf(o, r, lo, hi).value.t, lo, hi)
  }

  /** Members answer with their nearest candidate inside the interval: lowering the upper
      bound keeps the answer when it is still inside, and gives a miss otherwise. */
  ghost predicate NearestCandidate<T(!new)>(hitOf: (T, Ray, Ext, Ext) -> Option<HitRecord>) {
    forall o, r, lo, hi, hi' | Le(hi', hi) ::
      hitOf(o, r, lo, hi') ==
        (if hitOf(o, r, lo, hi).Some? && Le(Fin(hitOf(o, r, lo, hi).value.t), hi')
         then hitOf(o, r, lo, hi) else None)
  }

  // ---------------------------------------------------------------- properties

  /** Once a member has no box, no longer prefix has a box either. */
  lemma {:induction false} NoneAbsorbs<T>(objs: seq<T>, n: int, boxOf: (T, real, real) -> Option<Aabb>,
                                          time0: real, time1: real)
    requires 1 <= n <= |objs|
    requires ListBox(objs[..n], boxOf, time0, time1).None?
    ensures ListBox(objs, boxOf, time0, time1).None?
    decreases |objs| - n
  {
    if n < |objs| {
      assert objs[..n + 1][..n] == objs[..n];
      NoneAbsorbs(objs, n + 1, boxOf, time0, time1);
    } else {
      assert objs[..n] == objs;
    }
  }

  /** When members answer inside their interval, so does the list: its result lies in
      `[t_min, t_max]`. */
  lemma {:induction false} ClosestInRange<T(!new)>(objs: seq<T>, hitOf: (T, Ray, Ext, Ext) -> Option<HitRecord>,
                                             r: Ray, tMin: Ext, tMax: Ext)
    requires HitsInRange(hitOf)
    ensures var res := ClosestHit(objs, hitOf, r, tMin, tMax);
            res.Some? ==> InRange(res.value.t, tMin, tMax)
  {
    if |objs| > 0 {
      var before := ClosestHit(objs[..|objs| - 1], hitOf, r, tMin, tMax);
      ClosestInRange(objs[..|objs| - 1], hitOf, r, tMin, tMax);
      var hit := hitOf(objs[|objs| - 1], r, tMin, Bound(before, tMax));
      if hit.Some? {
        assert InRange(hit.value.t, tMin, Bound(before, tMax));
      }
    }
  }

  /** The list's answer is the answer of one of its members, to some upper bound. */
  lemma {:induction false} ClosestFromMember<T>(objs: seq<T>, hitOf: (T, Ray, Ext, Ext) -> Option<HitRecord>,
                                                r: Ray, tMin: Ext, tMax: Ext)
    ensures var res := ClosestHit(objs, hitOf, r, tMin, tMax);
            res.Some? ==> exists i, hi :: 0 <= i < |objs| && hitOf(objs[i], r, tMin, hi) == res
  {
    if |objs| > 0 {
      var n := |objs| - 1;
      var before := ClosestHit(objs[..n], hitOf, r, tMin, tMax);
      var hit := hitOf(objs[n], r, tMin, Bound(before, tMax));
      if hit.None? && before.Some? {
        ClosestFromMember(objs[..n], hitOf, r, tMin, tMax);
        var i, hi :| 0 <= i < n && hitOf(objs[..n][i], r, tMin, hi) == before;
        assert objs[..n][i] == objs[i];
      }
    }
  }

  /** Each later hit is no farther than the earlier ones: the scan's `t` never grows as
      members are appended. */
  lemma ClosestNeverRecedes<T(!new)>(objs: seq<T>, o: T, hitOf: (T, Ray, Ext, Ext) -> Option<HitRecord>,
                               r: Ray, tMin: Ext, tMax: Ext)
    requires HitsInRange(hitOf)
    requires ClosestHit(objs, hitOf, r, tMin, tMax).Some?
    ensures var after := ClosestHit(objs + [o], hitOf, r, tMin, tMax);
            after.Some? && after.value.t <= ClosestHit(objs, hitOf, r, tMin, tMax).value.t
  {
    assert (objs + [o])[..|objs|] == objs;
  }

  /** The list's answer is the nearest hit over all members, each asked about the whole
      interval, provided every member answers with its nearest candidate. */
  lemma {:induction false} ClosestIsNearest<T(!new)>(objs: seq<T>, hitOf: (T, Ray, Ext, Ext) -> Option<HitRecord>,
                                               r: Ray, tMin: Ext, tMax: Ext)
    requires HitsInRange(hitOf) && NearestCandidate(hitOf)
    ensures var res := ClosestHit(objs, hitOf, r, tMin, tMax);
            && (res.None? <==> forall i | 0 <= i < |objs| :: hitOf(objs[i], r, tMin, tMax).None?)
            && (res.Some? ==> exists i | 0 <= i < |objs| :: hitOf(objs[i], r, tMin, tMax) == res)
            && (res.Some? ==> forall i | 0 <= i < |objs| && hitOf(objs[i], r, tMin, tMax).Some? ::
                                res.value.t <= hitOf(objs[i], r, tMin, tMax).value.t)
  {
    if |objs| > 0 {
      var n := |objs| - 1;
      var prefix := objs[..n];
      var before := ClosestHit(prefix, hitOf, r, tMin, tMax);
      ClosestIsNearest(prefix, hitOf, r, tMin, tMax);
      ClosestInRange(prefix, hitOf, r, tMin, tMax);
      var bound := Bound(before, tMax);
      assert Le(bound, tMax);
      var full := hitOf(objs[n], r, tMin, tMax);
      var hit := hitOf(objs[n], r, tMin, bound);
      assert hit == if full.Some? && Le(Fin(full.value.t), bound) then full else None;
      assert forall i | 0 <= i < n :: objs[i] == prefix[i];
      if full.Some? {
        assert InRange(full.value.t, tMin, tMax);
      }
    }
  }

  /** An empty list, or one with a member without a box, has no box; otherwise the box
      encloses every member's box. */
  lemma {:induction false} ListBoxEnvelope<T>(objs: seq<T>, boxOf: (T, real, real) -> Option<Aabb>,
                                              time0: real, time1: real)
    ensures var res := ListBox(objs, boxOf, time0, time1);
            && (res.None? <==> |objs| == 0 || exists i | 0 <= i < |objs| :: boxOf(objs[i], time0, time1).None?)
            && (res.Some? ==> forall i | 0 <= i < |objs| :: Contains(res.value, boxOf(objs[i], time0, time1).value))
  {
    if |objs| > 1 {
      var n := |objs| - 1;
      var prefix := objs[..n];
      ListBoxEnvelope(prefix, boxOf, time0, time1);
      assert forall i | 0 <= i < n :: objs[i] == prefix[i];
      var res := ListBox(objs, boxOf, time0, time1);
      if res.Some? {
        var b := ListBox(prefix, boxOf, time0, time1).value;
        var tail := boxOf(objs[n], time0, time1).value;
        forall i | 0 <= i < |objs|
          ensures Contains(res.value, boxOf(objs[i], time0, time1).value)
        {
          if i < n {
            ContainsTransitive(res.value, b, boxOf(objs[i], time0, time1).value);
          }
        }
      }
    } else if |objs| == 1 {
      if boxOf(objs[0], time0, time1).Some? {
        ContainsReflexive(boxOf(objs[0], time0, time1).value);
      }
    }
  }
}
