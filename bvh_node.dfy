/** `BvhNode` (src/rt/shapes/bvh_node.rs): a bounding-volume hierarchy built by sorting
    a slice of objects in place on a randomly chosen axis and splitting it in half.
    Objects are generic; `boxOf` gives an object's box and `hitOf` its hit query. The
    random axis of each node is the supplied draw `axisOf(path)`, where `path` is the
    node's position in the tree (the left/right turns from the root, `true` for right). The library sort is `sortOf(slice, axis)`, the
    arrangement `sort_by` leaves; all that is relied on is that it is a permutation
    non-decreasing in the box minimum on the axis (`SortsByBox`), which the insertion
    sort `SortByKey` below satisfies. */
module BvhNodes {
  import opened Floats
  import opened Vectors
  import opened Rays
  import opened Boxes
  import opened HitRecords
  import opened HittableLists
  import XyRects

  /** A child is either one of the caller's objects or a node built for a sub-slice. */
  datatype Child<T> = Leaf(obj: T) | Inner(node: BvhNode<T>)

  datatype BvhNode<T> = BvhNode(left: Option<Child<T>>, right: Option<Child<T>>, bbox: Option<Aabb>)

  // ---------------------------------------------------------------- `box_compare`

  /** `box_compare` queries boxes at times (0, 0) and panics (`expect`) without one. */
  predicate HasBox<T(==)>(boxOf: (T, real, real) -> Option<Aabb>, o: T) {
    boxOf(o, 0.0, 0.0).Some?
  }

  predicate AllBoxed<T(==)>(boxOf: (T, real, real) -> Option<Aabb>, s: seq<T>) {
    forall o | o in s :: HasBox(boxOf, o)
  }

  /** The sort key: the box minimum on `axis` (`Vec3::get`, so any axis other than 0 and 1
      is z). Only ever taken of objects that have a box. */
  function Key<T(==)>(boxOf: (T, real, real) -> Option<Aabb>, axis: int, o: T): real {
    if HasBox(boxOf, o) then Get(boxOf(o, 0.0, 0.0).value.min, axis) else 0.0
  }

  /** The key on one axis, as a function to sort by. */
  function KeyOn<T(==)>(boxOf: (T, real, real) -> Option<Aabb>, axis: int): T -> real {
    o => Key(boxOf, axis, o)
  }

  /** `box_compare(a, b, axis)`. */
  function BoxCompare<T(==)>(boxOf: (T, real, real) -> Option<Aabb>, a: T, b: T, axis: int): (less: bool)
    requires HasBox(boxOf, a) && HasBox(boxOf, b)
    ensures less <==> Get(boxOf(a, 0.0, 0.0).value.min, axis) < Get(boxOf(b, 0.0, 0.0).value.min, axis)
  {
    Key(boxOf, axis, a) < Key(boxOf, axis, b)
  }

  // ---------------------------------------------------------------- sorting

  predicate SortedBy<T(==)>(s: seq<T>, key: T -> real) {
    forall i, j | 0 <= i < j < |s| :: key(s[i]) <= key(s[j])
  }

  /** Every key in `s` is at least `k`. */
  predicate KeysAtLeast<T>(k: real, s: seq<T>, key: T -> real) {
    forall i | 0 <= i < |s| :: k <= key(s[i])
  }

  function Insert<T(==)>(x: T, s: seq<T>, key: T -> real): (r: seq<T>)
    ensures |r| == |s| + 1
  {
    if |s| == 0 then [x]
    else if key(x) <= key(s[0]) then [x] + s
    else [s[0]] + Insert(x, s[1..], key)
  }

  /** The sorted arrangement of the slice: a permutation non-decreasing in the key. */
  function SortByKey<T(==)>(s: seq<T>, key: T -> real): (r: seq<T>)
    ensures |r| == |s|
    ensures multiset(r) == multiset(s)
    ensures SortedBy(r, key)
  {
    if |s| == 0 then []
    else
      var rest := SortByKey(s[1..], key);
      InsertPermutes(s[0], rest, key);
      InsertSorted(s[0], rest, key);
      assert s == [s[0]] + s[1..];
      Insert(s[0], rest, key)
  }

  lemma {:induction false} InsertPermutes<T>(x: T, s: seq<T>, key: T -> real)
    ensures multiset(Insert(x, s, key)) == multiset(s) + multiset{x}
  {
    if |s| > 0 {
      assert s == [s[0]] + s[1..];
      if key(s[0]) < key(x) {
        InsertPermutes(x, s[1..], key);
      }
    }
  }

  lemma {:induction false} InsertSorted<T>(x: T, s: seq<T>, key: T -> real)
    requires SortedBy(s, key)
    ensures SortedBy(Insert(x, s, key), key)
  {
    if |s| > 0 && key(s[0]) < key(x) {
      var rest := Insert(x, s[1..], key);
      InsertSorted(x, s[1..], key);
      InsertKeysAtLeast(key(s[0]), x, s[1..], key);
      assert Insert(x, s, key) == [s[0]] + rest;
    }
  }

  /** Inserting an element with a key of at least `k` into keys of at least `k`. */
  lemma {:induction false} InsertKeysAtLeast<T>(k: real, x: T, s: seq<T>, key: T -> real)
    requires k <= key(x) && KeysAtLeast(k, s, key)
    ensures KeysAtLeast(k, Insert(x, s, key), key)
  {
    if |s| > 0 && key(s[0]) < key(x) {
      InsertKeysAtLeast(k, x, s[1..], key);
    }
  }

  /** A permutation of a slice whose objects all have boxes, and both of its halves,
      have only objects with boxes. */
  lemma AllBoxedHalves<T>(boxOf: (T, real, real) -> Option<Aabb>, s: seq<T>, p: seq<T>, mid: int)
    requires AllBoxed(boxOf, s) && multiset(p) == multiset(s) && 0 <= mid <= |p|
    ensures AllBoxed(boxOf, p[..mid]) && AllBoxed(boxOf, p[mid..])
  {
    forall o | o in p
      ensures HasBox(boxOf, o)
    {
      assert o in multiset(p);
    }
  }

  // ---------------------------------------------------------------- build

  /** The box of a child at the build times: an object's own box, a node's stored box. */
  function ChildBox<T(==)>(c: Child<T>, boxOf: (T, real, real) -> Option<Aabb>, time0: real, time1: real): Option<Aabb> {
    match c
    case Leaf(o) => boxOf(o, time0, time1)
    case Inner(n) => n.bbox
  }

  /** A node over the given children, with the box of `from_slice` (lines 48-61). */
  function Combine<T(==)>(left: Option<Child<T>>, right: Option<Child<T>>,
                      boxOf: (T, real, real) -> Option<Aabb>, time0: real, time1: real): (n: BvhNode<T>)
    ensures n.left == left && n.right == right
    ensures var bl := if left.Some? then ChildBox(left.value, boxOf, time0, time1) else None;
            var br := if right.Some? then ChildBox(right.value, boxOf, time0, time1) else None;
            && (bl.Some? && br.Some? ==> n.bbox == Some(SurroundingBox(bl.value, br.value)))
            && (bl.Some? && br.None? ==> n.bbox == bl)
            && (bl.None? ==> n.bbox == br)
  {
    var bl := if left.Some? then ChildBox(left.value, boxOf, time0, time1) else None;
    var br := if right.Some? then ChildBox(right.value, boxOf, time0, time1) else None;
    var bbox := match (bl, br)
      case (Some(a), Some(b)) => Some(SurroundingBox(a, b))
      case (Some(a), None) => Some(a)
      case (None, Some(b)) => Some(b)
      case (None, None) => None;
    BvhNode(left, right, bbox)
  }

  /** `len / 2`, the split point; callers see only its bounds (`HalfIsDiv` ties it to
      the division), which keeps the arithmetic of nested splits linear. */
  function Half(n: nat): (h: nat)
    ensures 2 * h <= n <= 2 * h + 1
  {
    if n < 2 then 0 else 1 + Half(n - 2)
  }

  lemma HalfIsDiv(n: nat)
    ensures Half(n) == n / 2
  {
  }

  /** The node `from_slice` builds over the slice `s`, at position `path` in the tree. */
  function BuildNode<T(==,!new)>(s: seq<T>, path: seq<bool>, boxOf: (T, real, real) -> Option<Aabb>,
                                 sortOf: (seq<T>, int) -> seq<T>, axisOf: seq<bool> -> int,
                                 time0: real, time1: real): BvhNode<T>
    requires KeepsLength(sortOf)
    decreases |s|
  {
    var axis := axisOf(path);
    if |s| == 0 then Combine(None, None, boxOf, time0, time1)
    else if |s| == 1 then Combine(Some(Leaf(s[0])), None, boxOf, time0, time1)
    else if |s| == 2 then
      if Key(boxOf, axis, s[0]) < Key(boxOf, axis, s[1])
      then Combine(Some(Leaf(s[0])), Some(Leaf(s[1])), boxOf, time0, time1)
      else Combine(Some(Leaf(s[1])), Some(Leaf(s[0])), boxOf, time0, time1)
    else
      var sorted := sortOf(s, axis);
      SortedLength(sortOf, s, axis);
      var mid := Half(|s|);
      var left := BuildNode(sorted[..mid], path + [false], boxOf, sortOf, axisOf, time0, time1);
      var right := BuildNode(sorted[mid..], path + [true], boxOf, sortOf, axisOf, time0, time1);
      Combine(Some(Inner(left)), Some(Inner(right)), boxOf, time0, time1)
  }

  /** The order `from_slice` leaves the slice `s` in: untouched for up to two objects,
      otherwise the arrangements of the two halves of the sorted slice. */
  function Arrange<T(!new)>(s: seq<T>, path: seq<bool>, sortOf: (seq<T>, int) -> seq<T>, axisOf: seq<bool> -> int): seq<T>
    requires KeepsLength(sortOf)
    decreases |s|
  {
    if |s| <= 2 then s
    else
      var sorted := sortOf(s, axisOf(path));
      SortedLength(sortOf, s, axisOf(path));
      var mid := Half(|s|);
      Arrange(sorted[..mid], path + [false], sortOf, axisOf) + Arrange(sorted[mid..], path + [true], sortOf, axisOf)
  }

  /** `sortOf` returns a rearrangement of the same length. */
  ghost predicate KeepsLength<T(!new)>(sortOf: (seq<T>, int) -> seq<T>) {
    forall s: seq<T>, axis: int :: |sortOf(s, axis)| == |s|
  }

  lemma SortedLength<T(!new)>(sortOf: (seq<T>, int) -> seq<T>, s: seq<T>, axis: int)
    requires KeepsLength(sortOf)
    ensures |sortOf(s, axis)| == |s|
  {
  }

  /** `sortOf` behaves as the library sort is relied on to: it rearranges the slice into
      an order non-decreasing in the box minimum on the given axis. */
  ghost predicate SortsByBox<T(!new)>(sortOf: (seq<T>, int) -> seq<T>, boxOf: (T, real, real) -> Option<Aabb>) {
    forall s: seq<T>, axis: int ::
      multiset(sortOf(s, axis)) == multiset(s) && SortedBy(sortOf(s, axis), KeyOn(boxOf, axis))
  }

  /** A sort that permutes keeps the length. */
  lemma SortsByBoxKeepsLength<T(!new)>(sortOf: (seq<T>, int) -> seq<T>, boxOf: (T, real, real) -> Option<Aabb>)
    requires SortsByBox(sortOf, boxOf)
    ensures KeepsLength(sortOf)
  {
    forall s: seq<T>, axis: int
      ensures |sortOf(s, axis)| == |s|
    {
      assert |multiset(sortOf(s, axis))| == |multiset(s)|;
    }
  }

  /** The insertion sort is such a sort, so the hypothesis can be met. */
  lemma InsertionSortSorts<T(!new)>(boxOf: (T, real, real) -> Option<Aabb>)
    ensures SortsByBox((s, axis) => SortByKey(s, KeyOn(boxOf, axis)), boxOf)
  {
  }

  /** `x` with the slice `x[lo..hi]` replaced by `y`. */
  function Splice<T>(x: seq<T>, lo: int, hi: int, y: seq<T>): (r: seq<T>)
    requires 0 <= lo <= hi <= |x|
    ensures |r| == |x| - (hi - lo) + |y|
    ensures r[..lo] == x[..lo] && r[lo..lo + |y|] == y && r[lo + |y|..] == x[hi..]
  {
    x[..lo] + y + x[hi..]
  }

  /** `from_slice`: sorts the slice `a[lo..hi]` in place (for three or more objects),
      splits it at `len / 2` and recurses on both halves. `s` names the slice's
      contents on entry; the slice ends up holding the leaves in tree order, and
      nothing outside it changes. */
  method FromSlice<T(==,!new)>(a: array<T>, lo: int, hi: int, path: seq<bool>, ghost s: seq<T>,
                               boxOf: (T, real, real) -> Option<Aabb>,
                               sortOf: (seq<T>, int) -> seq<T>, axisOf: seq<bool> -> int,
                               time0: real, time1: real) returns (node: BvhNode<T>)
    requires 0 <= lo <= hi <= a.Length && a[lo..hi] == s
    requires hi - lo >= 2 ==> AllBoxed(boxOf, s)
    requires SortsByBox(sortOf, boxOf) && KeepsLength(sortOf)
    modifies a
    ensures node == BuildNode(s, path, boxOf, sortOf, axisOf, time0, time1)
    ensures a[..] == Splice(old(a[..]), lo, hi, Arrange(s, path, sortOf, axisOf))
    decreases hi - lo, 1
  {
    var axis := axisOf(path);
    var n := hi - lo;
    SpliceSame(a[..], lo, hi);
    if n == 0 {
      node := Combine(None, None, boxOf, time0, time1);
    } else if n == 1 {
      assert |s| == 1 && s[0] == a[lo];
      SingletonSeq(s);
      node := Combine(Some(Leaf(a[lo])), None, boxOf, time0, time1);
    } else if n == 2 {
      assert s == [a[lo], a[lo + 1]];
      if BoxCompare(boxOf, a[lo], a[lo + 1], axis) {
        node := Combine(Some(Leaf(a[lo])), Some(Leaf(a[lo + 1])), boxOf, time0, time1);
      } else {
        node := Combine(Some(Leaf(a[lo + 1])), Some(Leaf(a[lo])), boxOf, time0, time1);
      }
    } else {
      node := FromSorted(a, lo, hi, path, s, boxOf, sortOf, axisOf, time0, time1);
    }
  }

  /** The branch of `from_slice` for three or more objects: sorts the slice in place on
      the node's axis, splits it at `len / 2` and builds both halves, left first. */
  method FromSorted<T(==,!new)>(a: array<T>, lo: int, hi: int, path: seq<bool>, ghost s: seq<T>,
                                boxOf: (T, real, real) -> Option<Aabb>,
                                sortOf: (seq<T>, int) -> seq<T>, axisOf: seq<bool> -> int,
                                time0: real, time1: real) returns (node: BvhNode<T>)
    requires 0 <= lo && hi <= a.Length && hi - lo >= 3 && a[lo..hi] == s
    requires AllBoxed(boxOf, s)
    requires SortsByBox(sortOf, boxOf) && KeepsLength(sortOf)
    modifies a
    ensures node == BuildNode(s, path, boxOf, sortOf, axisOf, time0, time1)
    ensures a[..] == Splice(old(a[..]), lo, hi, Arrange(s, path, sortOf, axisOf))
    decreases hi - lo, 0
  {
    ghost var start := a[..];
    var sorted := sortOf(a[lo..hi], axisOf(path));
    SortedLength(sortOf, s, axisOf(path));
    WriteBack(a, lo, hi, sorted);
    ghost var written := a[..];
    var mid := (hi - lo) / 2;
    var m := lo + mid;
    AllBoxedHalves(boxOf, s, sorted, mid);
    ghost var sl, sr := sorted[..mid], sorted[mid..];
    ghost var al, ar := Arrange(sl, path + [false], sortOf, axisOf), Arrange(sr, path + [true], sortOf, axisOf);
    ArrangeLength(sl, path + [false], sortOf, axisOf);
    ArrangeLength(sr, path + [true], sortOf, axisOf);
    SliceSplit(written, lo, m, hi);
    var left := FromSlice(a, lo, m, path + [false], sl, boxOf, sortOf, axisOf, time0, time1);
    SpliceKeeps(written, lo, m, hi, al);
    var right := FromSlice(a, m, hi, path + [true], sr, boxOf, sortOf, axisOf, time0, time1);
    SpliceTwice(written, lo, m, hi, al, ar);
    SpliceOver(start, lo, hi, sorted, al + ar);
    node := Combine(Some(Inner(left)), Some(Inner(right)), boxOf, time0, time1);
    BuildStep(s, path, boxOf, sortOf, axisOf, time0, time1, sorted, mid, sl, sr, left, right, al, ar);
  }

  /** The step of `from_slice` for three or more objects: the node over the two halves'
      nodes, and the halves' arrangements side by side, are what the whole slice builds. */
  lemma BuildStep<T(!new)>(s: seq<T>, path: seq<bool>, boxOf: (T, real, real) -> Option<Aabb>,
                           sortOf: (seq<T>, int) -> seq<T>, axisOf: seq<bool> -> int, time0: real, time1: real,
                           sorted: seq<T>, mid: int, sl: seq<T>, sr: seq<T>,
                           left: BvhNode<T>, right: BvhNode<T>, leftSlice: seq<T>, rightSlice: seq<T>)
    requires |s| >= 3 && SortsByBox(sortOf, boxOf) && KeepsLength(sortOf)
    requires sorted == sortOf(s, axisOf(path)) && mid == |s| / 2 && |sorted| == |s|
    requires sl == sorted[..mid] && sr == sorted[mid..]
    requires left == BuildNode(sl, path + [false], boxOf, sortOf, axisOf, time0, time1)
    requires right == BuildNode(sr, path + [true], boxOf, sortOf, axisOf, time0, time1)
    requires leftSlice == Arrange(sl, path + [false], sortOf, axisOf)
    requires rightSlice == Arrange(sr, path + [true], sortOf, axisOf)
    ensures Combine(Some(Inner(left)), Some(Inner(right)), boxOf, time0, time1)
              == BuildNode(s, path, boxOf, sortOf, axisOf, time0, time1)
    ensures leftSlice + rightSlice == Arrange(s, path, sortOf, axisOf)
  {
    HalfIsDiv(|s|);
    var _, _, _, _ := BuildMany(s, path, boxOf, sortOf, axisOf, time0, time1);
    ArrangeMany(s, path, sortOf, axisOf);
  }

  /** A one-element sequence is the singleton of its element. */
  lemma SingletonSeq<T>(s: seq<T>)
    requires |s| == 1
    ensures s == [s[0]]
  {
  }

  /** A slice splits at any point inside it. */
  lemma SliceSplit<T>(x: seq<T>, i: int, j: int, k: int)
    requires 0 <= i <= j <= k <= |x|
    ensures x[i..k] == x[i..j] + x[j..k]
  {
  }

  /** Putting a slice back where it was changes nothing. */
  lemma SpliceSame<T>(x: seq<T>, lo: int, hi: int)
    requires 0 <= lo <= hi <= |x|
    ensures Splice(x, lo, hi, x[lo..hi]) == x
  {
    assert x == x[..lo] + x[lo..hi] + x[hi..];
  }

  /** Replacing a slice twice leaves the second replacement. */
  lemma SpliceOver<T>(x: seq<T>, lo: int, hi: int, y: seq<T>, z: seq<T>)
    requires 0 <= lo <= hi <= |x| && |y| == |z| == hi - lo
    ensures Splice(Splice(x, lo, hi, y), lo, hi, z) == Splice(x, lo, hi, z)
  {
  }

  /** Replacing `x[lo..m]` by a slice of the same length keeps `x[m..hi]`. */
  lemma SpliceKeeps<T>(x: seq<T>, lo: int, m: int, hi: int, y: seq<T>)
    requires 0 <= lo <= m <= hi <= |x| && |y| == m - lo
    ensures Splice(x, lo, m, y)[m..hi] == x[m..hi]
  {
    assert Splice(x, lo, m, y)[m..] == x[m..];
    assert Splice(x, lo, m, y)[m..hi] == Splice(x, lo, m, y)[m..][..hi - m];
    assert x[m..hi] == x[m..][..hi - m];
  }

  /** Replacing the two halves of `x[lo..hi]` one after the other replaces the whole. */
  lemma SpliceTwice<T>(x: seq<T>, lo: int, m: int, hi: int, y: seq<T>, z: seq<T>)
    requires 0 <= lo <= m <= hi <= |x| && |y| == m - lo && |z| == hi - m
    ensures Splice(Splice(x, lo, m, y), m, hi, z) == Splice(x, lo, hi, y + z)
  {
    var once := Splice(x, lo, m, y);
    assert once[..m] == x[..lo] + y;
    assert once[hi..] == x[hi..];
  }

  /** The arrangement keeps the number of objects. */
  lemma {:induction false} ArrangeLength<T(!new)>(s: seq<T>, path: seq<bool>, sortOf: (seq<T>, int) -> seq<T>,
                                                  axisOf: seq<bool> -> int)
    requires KeepsLength(sortOf)
    ensures |Arrange(s, path, sortOf, axisOf)| == |s|
    decreases |s|
  {
    if |s| > 2 {
      var sorted := sortOf(s, axisOf(path));
      SortedLength(sortOf, s, axisOf(path));
      var mid := Half(|s|);
      ArrangeLength(sorted[..mid], path + [false], sortOf, axisOf);
      ArrangeLength(sorted[mid..], path + [true], sortOf, axisOf);
    }
  }

  /** Copies `sorted` over `a[lo..hi]`, leaving the rest of `a` alone. */
  method WriteBack<T(==)>(a: array<T>, lo: int, hi: int, sorted: seq<T>)
    requires 0 <= lo && hi == lo + |sorted| <= a.Length
    modifies a
    ensures a[..] == Splice(old(a[..]), lo, hi, sorted)
  {
    ghost var start := a[..];
    for k := 0 to |sorted|
      invariant a[..] == Splice(start, lo, lo + k, sorted[..k])
    {
      ghost var before := a[..];
      a[lo + k] := sorted[k];
      assert a[..] == before[lo + k := sorted[k]];
      SpliceStep(start, lo, k, sorted);
    }
    assert sorted[..|sorted|] == sorted;
  }

  /** Writing the next element of `y` extends the replaced slice by one. */
  lemma SpliceStep<T>(x: seq<T>, lo: int, k: int, y: seq<T>)
    requires 0 <= k < |y| && 0 <= lo && lo + |y| <= |x|
    ensures Splice(x, lo, lo + k, y[..k])[lo + k := y[k]] == Splice(x, lo, lo + k + 1, y[..k + 1])
  {
    assert y[..k + 1] == y[..k] + [y[k]];
  }

  /** `from_list`: builds over the list's own vector, which is reordered. */
  method FromList<T(==,!new)>(list: HittableList<T>, boxOf: (T, real, real) -> Option<Aabb>,
                              sortOf: (seq<T>, int) -> seq<T>, axisOf: seq<bool> -> int,
                              time0: real, time1: real) returns (node: BvhNode<T>)
    requires |list.objects| >= 2 ==> AllBoxed(boxOf, list.objects)
    requires SortsByBox(sortOf, boxOf) && KeepsLength(sortOf)
    modifies list
    ensures node == BuildNode(old(list.objects), [], boxOf, sortOf, axisOf, time0, time1)
    ensures list.objects == Arrange(old(list.objects), [], sortOf, axisOf)
  {
    var objects := list.objects;
    var a := new T[|objects|](i requires 0 <= i < |objects| => objects[i]);
    assert a[0..a.Length] == objects;
    node := FromSlice(a, 0, a.Length, [], objects, boxOf, sortOf, axisOf, time0, time1);
    ArrangeLength(objects, [], sortOf, axisOf);
    list.objects := a[..];
  }

  // ---------------------------------------------------------------- queries

  /** `bounding_box`: the stored box, whatever the times. */
  function BoundingBox<T(==)>(node: BvhNode<T>, time0: real, time1: real): (b: Option<Aabb>)
    ensures b == node.bbox
  {
    node.bbox
  }

  /** `hit`: prune with the slab test, search the left child, then the right child up to
      the left hit; the right answer wins. */
  function Hit<T(==)>(f: FloatOps, node: BvhNode<T>, hitOf: (T, Ray, Ext, Ext) -> Option<HitRecord>,
                  r: Ray, tMin: Ext, tMax: Ext): (res: Option<HitRecord>)
    ensures node.bbox.None? || !SlabHit(f, node.bbox.value, r, tMin, tMax) ==> res.None?
    decreases node
  {
    if node.bbox.None? || !SlabHit(f, node.bbox.value, r, tMin, tMax) then None
    else
      var hitLeft := ChildHit(f, node.left, hitOf, r, tMin, tMax);
      var hitRight := ChildHit(f, node.right, hitOf, r, tMin, Bound(hitLeft, tMax));
      if hitRight.Some? then hitRight else hitLeft
  }

  /** The hit query of an optional child (`None` answers nothing). */
  function ChildHit<T(==)>(f: FloatOps, c: Option<Child<T>>, hitOf: (T, Ray, Ext, Ext) -> Option<HitRecord>,
                       r: Ray, tMin: Ext, tMax: Ext): (res: Option<HitRecord>)
    ensures c.None? ==> res.None?
    decreases c
  {
    match c
    case None => None
    case Some(Leaf(o)) => hitOf(o, r, tMin, tMax)
    case Some(Inner(n)) => Hit(f, n, hitOf, r, tMin, tMax)
  }

  // ---------------------------------------------------------------- leaves

  function Leaves<T(==)>(node: BvhNode<T>): multiset<T>
    decreases node
  {
    ChildLeaves(node.left) + ChildLeaves(node.right)
  }

  function ChildLeaves<T(==)>(c: Option<Child<T>>): multiset<T>
    decreases c
  {
    match c
    case None => multiset{}
    case Some(Leaf(o)) => multiset{o}
    case Some(Inner(n)) => Leaves(n)
  }

  // ---------------------------------------------------------------- properties

  /** `from_slice` only permutes the slice. */
  lemma {:induction false} ArrangePermutes<T(!new)>(s: seq<T>, path: seq<bool>, boxOf: (T, real, real) -> Option<Aabb>,
                                                   sortOf: (seq<T>, int) -> seq<T>, axisOf: seq<bool> -> int)
    requires SortsByBox(sortOf, boxOf) && KeepsLength(sortOf)
    ensures multiset(Arrange(s, path, sortOf, axisOf)) == multiset(s)
    decreases |s|
  {
    if |s| > 2 {
      var sorted := sortOf(s, axisOf(path));
      SortedLength(sortOf, s, axisOf(path));
      var mid := Half(|s|);
      ArrangePermutes(sorted[..mid], path + [false], boxOf, sortOf, axisOf);
      ArrangePermutes(sorted[mid..], path + [true], boxOf, sortOf, axisOf);
      SplitMultiset(sorted, mid);
    }
  }

  /** The tree holds each object of the slice exactly as many times as the slice does. */
  lemma LeavesPermute<T(!new)>(s: seq<T>, path: seq<bool>, boxOf: (T, real, real) -> Option<Aabb>,
                               sortOf: (seq<T>, int) -> seq<T>, axisOf: seq<bool> -> int,
                               time0: real, time1: real)
    requires SortsByBox(sortOf, boxOf) && KeepsLength(sortOf)
    ensures Leaves(BuildNode(s, path, boxOf, sortOf, axisOf, time0, time1)) == multiset(s)
  {
    LeavesOf(s, path, boxOf, sortOf, axisOf, time0, time1, BuildNode(s, path, boxOf, sortOf, axisOf, time0, time1));
  }

  /** The induction behind `LeavesPermute`, about the node built rather than the call
      that builds it. */
  lemma {:induction false} LeavesOf<T(!new)>(s: seq<T>, path: seq<bool>, boxOf: (T, real, real) -> Option<Aabb>,
                                            sortOf: (seq<T>, int) -> seq<T>, axisOf: seq<bool> -> int,
                                            time0: real, time1: real, node: BvhNode<T>)
    requires SortsByBox(sortOf, boxOf) && KeepsLength(sortOf)
    requires node == BuildNode(s, path, boxOf, sortOf, axisOf, time0, time1)
    ensures Leaves(node) == multiset(s)
    decreases |s|
  {
    if |s| <= 2 {
      if |s| == 2 {
        assert s == [s[0], s[1]];
        LeavesPair(s[0], s[1], path, boxOf, sortOf, axisOf, time0, time1);
      } else if |s| == 1 {
        assert s == [s[0]];
      }
    } else {
      var sorted, mid, left, right := BuildMany(s, path, boxOf, sortOf, axisOf, time0, time1);
      LeavesOf(sorted[..mid], path + [false], boxOf, sortOf, axisOf, time0, time1, left);
      LeavesOf(sorted[mid..], path + [true], boxOf, sortOf, axisOf, time0, time1, right);
      SplitMultiset(sorted, mid);
      LeavesCombine(left, right, boxOf, time0, time1);
    }
  }

  /** The case of three or more objects, unfolded: the node has the builds of the two
      halves of the sorted slice as its children. */
  lemma BuildMany<T(!new)>(s: seq<T>, path: seq<bool>, boxOf: (T, real, real) -> Option<Aabb>,
                           sortOf: (seq<T>, int) -> seq<T>, axisOf: seq<bool> -> int, time0: real, time1: real)
    returns (sorted: seq<T>, mid: int, left: BvhNode<T>, right: BvhNode<T>)
    requires |s| >= 3 && SortsByBox(sortOf, boxOf) && KeepsLength(sortOf)
    ensures sorted == sortOf(s, axisOf(path)) && multiset(sorted) == multiset(s)
    ensures mid == Half(|s|) && 0 < mid < |sorted| == |s|
    ensures left == BuildNode(sorted[..mid], path + [false], boxOf, sortOf, axisOf, time0, time1)
    ensures right == BuildNode(sorted[mid..], path + [true], boxOf, sortOf, axisOf, time0, time1)
    ensures BuildNode(s, path, boxOf, sortOf, axisOf, time0, time1)
              == Combine(Some(Inner(left)), Some(Inner(right)), boxOf, time0, time1)
  {
    sorted := sortOf(s, axisOf(path));
    SortedLength(sortOf, s, axisOf(path));
    mid := Half(|s|);
    left := BuildNode(sorted[..mid], path + [false], boxOf, sortOf, axisOf, time0, time1);
    right := BuildNode(sorted[mid..], path + [true], boxOf, sortOf, axisOf, time0, time1);
  }

  lemma LeavesCombine<T>(left: BvhNode<T>, right: BvhNode<T>, boxOf: (T, real, real) -> Option<Aabb>,
                         time0: real, time1: real)
    ensures Leaves(Combine(Some(Inner(left)), Some(Inner(right)), boxOf, time0, time1)) == Leaves(left) + Leaves(right)
  {
  }

  /** The arrangement of three or more objects, unfolded. */
  lemma ArrangeMany<T(!new)>(s: seq<T>, path: seq<bool>, sortOf: (seq<T>, int) -> seq<T>, axisOf: seq<bool> -> int)
    requires |s| >= 3 && KeepsLength(sortOf)
    ensures var sorted := sortOf(s, axisOf(path));
            |sorted| == |s| &&
            Arrange(s, path, sortOf, axisOf)
              == Arrange(sorted[..Half(|s|)], path + [false], sortOf, axisOf)
                 + Arrange(sorted[Half(|s|)..], path + [true], sortOf, axisOf)
  {
    SortedLength(sortOf, s, axisOf(path));
  }

  lemma LeavesPair<T(!new)>(x: T, y: T, path: seq<bool>, boxOf: (T, real, real) -> Option<Aabb>,
                            sortOf: (seq<T>, int) -> seq<T>, axisOf: seq<bool> -> int, time0: real, time1: real)
    requires KeepsLength(sortOf)
    ensures Leaves(BuildNode([x, y], path, boxOf, sortOf, axisOf, time0, time1)) == multiset{x, y}
  {
    var n := BuildNode([x, y], path, boxOf, sortOf, axisOf, time0, time1);
    assert n.left.Some? && n.right.Some?;
    assert multiset{n.left.value.obj, n.right.value.obj} == multiset{x, y};
  }

  lemma SplitMultiset<T>(s: seq<T>, mid: int)
    requires 0 <= mid <= |s|
    ensures multiset(s) == multiset(s[..mid]) + multiset(s[mid..])
  {
    assert s == s[..mid] + s[mid..];
  }

  /** An empty slice yields no children and no box. */
  lemma BuildEmpty<T(!new)>(path: seq<bool>, boxOf: (T, real, real) -> Option<Aabb>, sortOf: (seq<T>, int) -> seq<T>,
                            axisOf: seq<bool> -> int, time0: real, time1: real)
    requires KeepsLength(sortOf)
    ensures BuildNode([], path, boxOf, sortOf, axisOf, time0, time1) == BvhNode(None, None, None)
  {
  }

  /** One object becomes the left child, there is no right child, and the node box is
      the object's box. */
  lemma BuildSingle<T(!new)>(o: T, path: seq<bool>, boxOf: (T, real, real) -> Option<Aabb>, sortOf: (seq<T>, int) -> seq<T>,
                             axisOf: seq<bool> -> int, time0: real, time1: real)
    requires KeepsLength(sortOf)
    ensures BuildNode([o], path, boxOf, sortOf, axisOf, time0, time1) == BvhNode(Some(Leaf(o)), None, boxOf(o, time0, time1))
  {
  }

  /** Two objects become two leaves, ordered by their box minima on the node's axis, and
      the slice is not reordered. */
  lemma BuildPair<T(!new)>(x: T, y: T, path: seq<bool>, boxOf: (T, real, real) -> Option<Aabb>, sortOf: (seq<T>, int) -> seq<T>,
                           axisOf: seq<bool> -> int, time0: real, time1: real)
    requires KeepsLength(sortOf)
    ensures var n := BuildNode([x, y], path, boxOf, sortOf, axisOf, time0, time1);
            var axis := axisOf(path);
            && Arrange([x, y], path, sortOf, axisOf) == [x, y]
            && n.left.Some? && n.left.value.Leaf? && n.right.Some? && n.right.value.Leaf?
            && multiset{n.left.value.obj, n.right.value.obj} == multiset{x, y}
            && Key(boxOf, axis, n.left.value.obj) <= Key(boxOf, axis, n.right.value.obj)
  {
  }

  /** Three or more objects: the children are built from the two halves of a permutation
      of the slice that is sorted on the node's axis; the left half has `len / 2` objects. */
  lemma BuildSplits<T(!new)>(s: seq<T>, path: seq<bool>, boxOf: (T, real, real) -> Option<Aabb>,
                             sortOf: (seq<T>, int) -> seq<T>, axisOf: seq<bool> -> int,
                             time0: real, time1: real)
    requires |s| >= 3 && SortsByBox(sortOf, boxOf) && KeepsLength(sortOf)
    ensures var n := BuildNode(s, path, boxOf, sortOf, axisOf, time0, time1);
            var axis := axisOf(path);
            exists sorted: seq<T> ::
              && |sorted| == |s|
              && multiset(sorted) == multiset(s)
              && SortedBy(sorted, KeyOn(boxOf, axis))
              && n.left == Some(Inner(BuildNode(sorted[..Half(|s|)], path + [false], boxOf, sortOf, axisOf, time0, time1)))
              && n.right == Some(Inner(BuildNode(sorted[Half(|s|)..], path + [true], boxOf, sortOf, axisOf, time0, time1)))
  {
    var sorted := sortOf(s, axisOf(path));
    assert sorted[0..] == sorted;
  }

  /** When the leaves answer only inside their interval, so does the tree, and the right
      child's answer is never farther than the left child's. */
  lemma {:induction false} HitInRange<T(!new)>(f: FloatOps, node: BvhNode<T>,
                                         hitOf: (T, Ray, Ext, Ext) -> Option<HitRecord>,
                                         r: Ray, tMin: Ext, tMax: Ext)
    requires HittableLists.HitsInRange(hitOf)
    ensures var res := Hit(f, node, hitOf, r, tMin, tMax);
            res.Some? ==> InRange(res.value.t, tMin, tMax)
    ensures var hitLeft := ChildHit(f, node.left, hitOf, r, tMin, tMax);
            var res := Hit(f, node, hitOf, r, tMin, tMax);
            res.Some? && hitLeft.Some? ==> res.value.t <= hitLeft.value.t
    decreases node
  {
    ChildHitInRange(f, node.left, hitOf, r, tMin, tMax);
    var hitLeft := ChildHit(f, node.left, hitOf, r, tMin, tMax);
    ChildHitInRange(f, node.right, hitOf, r, tMin, Bound(hitLeft, tMax));
  }

  lemma {:induction false} ChildHitInRange<T(!new)>(f: FloatOps, c: Option<Child<T>>,
                                              hitOf: (T, Ray, Ext, Ext) -> Option<HitRecord>,
                                              r: Ray, tMin: Ext, tMax: Ext)
    requires HittableLists.HitsInRange(hitOf)
    ensures var res := ChildHit(f, c, hitOf, r, tMin, tMax);
            res.Some? ==> InRange(res.value.t, tMin, tMax)
    decreases c
  {
    match c
    case None =>
    case Some(Leaf(o)) =>
    case Some(Inner(n)) => HitInRange(f, n, hitOf, r, tMin, tMax);
  }

  // ---------------------------------------------------------------- nearest hit

  /** `res` is the nearest answer among the objects of `m`, each asked about the whole
      interval: a miss iff every object misses, otherwise one object's answer, no farther
      than any object's answer. */
  ghost predicate NearestAmong<T(!new)>(res: Option<HitRecord>, m: multiset<T>,
                                        hitOf: (T, Ray, Ext, Ext) -> Option<HitRecord>,
                                        r: Ray, tMin: Ext, tMax: Ext) {
    && (res.None? <==> forall o | o in m :: hitOf(o, r, tMin, tMax).None?)
    && (res.Some? ==> exists o | o in m :: hitOf(o, r, tMin, tMax) == res)
    && (res.Some? ==> forall o | o in m && hitOf(o, r, tMin, tMax).Some? ::
                        res.value.t <= hitOf(o, r, tMin, tMax).value.t)
  }

  /** The slab test never discards an answer on a non-empty interval: whenever an object
      under the node answers an interval `[lo, hi]` with `lo < hi`, the node has a box and
      the ray passes it on that interval; and the same holds of every inner node below.
      One-point intervals are left out, since the slab test rejects them all; the search
      reaches one only after a hit at `t_min`, which nothing can beat. `RectLeafNeverPruned`
      shows a rectangle leaf that is hit and meets this. */
  ghost predicate NeverPrunesHit<T(!new)>(f: FloatOps, node: BvhNode<T>,
                                          hitOf: (T, Ray, Ext, Ext) -> Option<HitRecord>, r: Ray)
    decreases node
  {
    && (forall o, lo, hi | o in Leaves(node) && Lt(lo, hi) && hitOf(o, r, lo, hi).Some? ::
          node.bbox.Some? && SlabHit(f, node.bbox.value, r, lo, hi))
    && ChildNeverPrunesHit(f, node.left, hitOf, r)
    && ChildNeverPrunesHit(f, node.right, hitOf, r)
  }

  ghost predicate ChildNeverPrunesHit<T(!new)>(f: FloatOps, c: Option<Child<T>>,
                                               hitOf: (T, Ray, Ext, Ext) -> Option<HitRecord>, r: Ray)
    decreases c
  {
    match c
    case Some(Inner(n)) => NeverPrunesHit(f, n, hitOf, r)
    case _ => true
  }

  /** An answer to a narrower interval is the answer to the wider one. */
  lemma Widen<T(!new)>(o: T, hitOf: (T, Ray, Ext, Ext) -> Option<HitRecord>,
                       r: Ray, lo: Ext, hi': Ext, hi: Ext)
    requires NearestCandidate(hitOf) && Le(hi', hi) && hitOf(o, r, lo, hi').Some?
    ensures hitOf(o, r, lo, hi) == hitOf(o, r, lo, hi')
  {
  }

  /** Whatever the tree answers is the answer one of its leaves gives to the whole
      interval. */
  lemma {:induction false} HitFromLeaf<T(!new)>(f: FloatOps, node: BvhNode<T>,
                                                hitOf: (T, Ray, Ext, Ext) -> Option<HitRecord>,
                                                r: Ray, tMin: Ext, tMax: Ext)
    requires HitsInRange(hitOf) && NearestCandidate(hitOf)
    ensures var res := Hit(f, node, hitOf, r, tMin, tMax);
            res.Some? ==> exists o | o in Leaves(node) :: hitOf(o, r, tMin, tMax) == res
    decreases node
  {
    if node.bbox.Some? && SlabHit(f, node.bbox.value, r, tMin, tMax) {
      var hitLeft := ChildHit(f, node.left, hitOf, r, tMin, tMax);
      var bound := Bound(hitLeft, tMax);
      var hitRight := ChildHit(f, node.right, hitOf, r, tMin, bound);
      ChildHitFromLeaf(f, node.left, hitOf, r, tMin, tMax);
      ChildHitFromLeaf(f, node.right, hitOf, r, tMin, bound);
      if hitLeft.Some? {
        var o :| o in ChildLeaves(node.left) && hitOf(o, r, tMin, tMax) == hitLeft;
        assert InRange(hitLeft.value.t, tMin, tMax);
      }
      if hitRight.Some? {
        var o :| o in ChildLeaves(node.right) && hitOf(o, r, tMin, bound) == hitRight;
        Widen(o, hitOf, r, tMin, bound, tMax);
      }
    }
  }

  lemma {:induction false} ChildHitFromLeaf<T(!new)>(f: FloatOps, c: Option<Child<T>>,
                                                     hitOf: (T, Ray, Ext, Ext) -> Option<HitRecord>,
                                                     r: Ray, tMin: Ext, tMax: Ext)
    requires HitsInRange(hitOf) && NearestCandidate(hitOf)
    ensures var res := ChildHit(f, c, hitOf, r, tMin, tMax);
            res.Some? ==> exists o | o in ChildLeaves(c) :: hitOf(o, r, tMin, tMax) == res
    decreases c
  {
    match c
    case None =>
    case Some(Leaf(o)) =>
    case Some(Inner(n)) => HitFromLeaf(f, n, hitOf, r, tMin, tMax);
  }

  /** The BVH answers a non-empty interval with the nearest hit among all its leaves:
      searching the right child only up to the left child's hit loses nothing, provided
      leaves answer with their nearest candidate inside the interval and no enclosing box
      prunes a hit. */
  lemma {:induction false} HitIsNearest<T(!new)>(f: FloatOps, node: BvhNode<T>,
                                                 hitOf: (T, Ray, Ext, Ext) -> Option<HitRecord>,
                                                 r: Ray, tMin: Ext, tMax: Ext)
    requires HitsInRange(hitOf) && NearestCandidate(hitOf) && NeverPrunesHit(f, node, hitOf, r)
    requires Lt(tMin, tMax)
    ensures var res := Hit(f, node, hitOf, r, tMin, tMax);
            && (res.None? <==> forall o | o in Leaves(node) :: hitOf(o, r, tMin, tMax).None?)
            && (res.Some? ==> exists o | o in Leaves(node) :: hitOf(o, r, tMin, tMax) == res)
            && (res.Some? ==> forall o | o in Leaves(node) && hitOf(o, r, tMin, tMax).Some? ::
                                res.value.t <= hitOf(o, r, tMin, tMax).value.t)
    decreases node
  {
    if node.bbox.None? || !SlabHit(f, node.bbox.value, r, tMin, tMax) {
      forall o | o in Leaves(node) ensures hitOf(o, r, tMin, tMax).None? {
      }
    } else {
      var hitLeft := ChildHit(f, node.left, hitOf, r, tMin, tMax);
      var bound := Bound(hitLeft, tMax);
      var hitRight := ChildHit(f, node.right, hitOf, r, tMin, bound);
      ChildHitIsNearest(f, node.left, hitOf, r, tMin, tMax);
      if Lt(tMin, bound) {
        ChildHitIsNearest(f, node.right, hitOf, r, tMin, bound);
        NarrowedSearch(hitLeft, hitRight, ChildLeaves(node.left), ChildLeaves(node.right), hitOf, r, tMin, tMax);
      } else {
        // The left child hit at `t_min` itself; the right child is searched on the
        // one-point interval and may be pruned, but cannot do better.
        var o :| o in ChildLeaves(node.left) && hitOf(o, r, tMin, tMax) == hitLeft;
        assert InRange(hitLeft.value.t, tMin, tMax);
        ChildHitInRange(f, node.right, hitOf, r, tMin, bound);
        ChildHitFromLeaf(f, node.right, hitOf, r, tMin, bound);
        if hitRight.Some? {
          var o' :| o' in ChildLeaves(node.right) && hitOf(o', r, tMin, bound) == hitRight;
          Widen(o', hitOf, r, tMin, bound, tMax);
        }
        TiedSearch(hitLeft, hitRight, ChildLeaves(node.left), ChildLeaves(node.right), hitOf, r, tMin, tMax);
      }
    }
  }

  lemma {:induction false} ChildHitIsNearest<T(!new)>(f: FloatOps, c: Option<Child<T>>,
                                                      hitOf: (T, Ray, Ext, Ext) -> Option<HitRecord>,
                                                      r: Ray, tMin: Ext, tMax: Ext)
    requires HitsInRange(hitOf) && NearestCandidate(hitOf) && ChildNeverPrunesHit(f, c, hitOf, r)
    requires Lt(tMin, tMax)
    ensures NearestAmong(ChildHit(f, c, hitOf, r, tMin, tMax), ChildLeaves(c), hitOf, r, tMin, tMax)
    decreases c
  {
    match c
    case None =>
    case Some(Leaf(o)) =>
    case Some(Inner(n)) => HitIsNearest(f, n, hitOf, r, tMin, tMax);
  }

  /** The step of `hit` that makes the tree exact: the left child's nearest answer, and
      the right child's nearest answer below it, give the nearest answer over both. */
  lemma NarrowedSearch<T(!new)>(hitLeft: Option<HitRecord>, hitRight: Option<HitRecord>,
                                left: multiset<T>, right: multiset<T>,
                                hitOf: (T, Ray, Ext, Ext) -> Option<HitRecord>,
                                r: Ray, tMin: Ext, tMax: Ext)
    requires HitsInRange(hitOf) && NearestCandidate(hitOf)
    requires NearestAmong(hitLeft, left, hitOf, r, tMin, tMax)
    requires NearestAmong(hitRight, right, hitOf, r, tMin, Bound(hitLeft, tMax))
    ensures NearestAmong(if hitRight.Some? then hitRight else hitLeft, left + right, hitOf, r, tMin, tMax)
  {
    var bound := Bound(hitLeft, tMax);
    if hitLeft.Some? {
      var o :| o in left && hitOf(o, r, tMin, tMax) == hitLeft;
      assert InRange(hitLeft.value.t, tMin, tMax);
    }
    assert Le(bound, tMax);
    // Narrowing the bound keeps every answer at or below it and drops the rest.
    forall o ensures hitOf(o, r, tMin, bound) ==
        (if hitOf(o, r, tMin, tMax).Some? && Le(Fin(hitOf(o, r, tMin, tMax).value.t), bound)
         then hitOf(o, r, tMin, tMax) else None) {
    }
    if hitRight.Some? {
      assert InRange(hitRight.value.t, tMin, bound);
    }
  }

  /** The same step when the left child hit at `t_min` itself: whatever the right child
      answers on the one-point interval, the combined answer is at `t_min`, and so the
      nearest over both. */
  lemma TiedSearch<T(!new)>(hitLeft: Option<HitRecord>, hitRight: Option<HitRecord>,
                            left: multiset<T>, right: multiset<T>,
                            hitOf: (T, Ray, Ext, Ext) -> Option<HitRecord>,
                            r: Ray, tMin: Ext, tMax: Ext)
    requires HitsInRange(hitOf)
    requires NearestAmong(hitLeft, left, hitOf, r, tMin, tMax)
    requires hitLeft.Some? && tMin == Fin(hitLeft.value.t)
    requires hitRight.Some? ==> hitRight.value.t == hitLeft.value.t
    requires hitRight.Some? ==> exists o | o in right :: hitOf(o, r, tMin, tMax) == hitRight
    ensures NearestAmong(if hitRight.Some? then hitRight else hitLeft, left + right, hitOf, r, tMin, tMax)
  {
    forall o | o in left + right && hitOf(o, r, tMin, tMax).Some?
      ensures hitLeft.value.t <= hitOf(o, r, tMin, tMax).value.t
    {
      assert InRange(hitOf(o, r, tMin, tMax).value.t, tMin, tMax);
    }
  }

  /** A BVH and a hittable list holding the same objects agree on a non-empty interval:
      both miss, or both hit at the same `t`. */
  lemma HitMatchesList<T(!new)>(f: FloatOps, node: BvhNode<T>, objs: seq<T>,
                                hitOf: (T, Ray, Ext, Ext) -> Option<HitRecord>,
                                r: Ray, tMin: Ext, tMax: Ext)
    requires HitsInRange(hitOf) && NearestCandidate(hitOf) && NeverPrunesHit(f, node, hitOf, r)
    requires multiset(objs) == Leaves(node) && Lt(tMin, tMax)
    ensures var bvh := Hit(f, node, hitOf, r, tMin, tMax);
            var list := ClosestHit(objs, hitOf, r, tMin, tMax);
            && (bvh.None? <==> list.None?)
            && (bvh.Some? ==> bvh.value.t == list.value.t)
  {
    HitIsNearest(f, node, hitOf, r, tMin, tMax);
    ClosestIsNearest(objs, hitOf, r, tMin, tMax);
    var bvh := Hit(f, node, hitOf, r, tMin, tMax);
    var list := ClosestHit(objs, hitOf, r, tMin, tMax);
    if bvh.Some? {
      var o :| o in Leaves(node) && hitOf(o, r, tMin, tMax) == bvh;
      assert o in objs;
      var i :| 0 <= i < |objs| && objs[i] == o;
      assert list.Some?;
      var j :| 0 <= j < |objs| && hitOf(objs[j], r, tMin, tMax) == list;
      assert objs[j] in multiset(objs);
    } else {
      forall i | 0 <= i < |objs| ensures hitOf(objs[i], r, tMin, tMax).None? {
        assert objs[i] in multiset(objs);
      }
    }
  }

  /** The tree `from_slice` builds answers a non-empty interval exactly as the list it was
      built from: the same miss or the same nearest `t`. */
  lemma BuiltMatchesList<T(!new)>(f: FloatOps, s: seq<T>, path: seq<bool>, boxOf: (T, real, real) -> Option<Aabb>,
                                  sortOf: (seq<T>, int) -> seq<T>, axisOf: seq<bool> -> int,
                                  time0: real, time1: real,
                                  hitOf: (T, Ray, Ext, Ext) -> Option<HitRecord>,
                                  r: Ray, tMin: Ext, tMax: Ext)
    requires SortsByBox(sortOf, boxOf) && KeepsLength(sortOf)
    requires HitsInRange(hitOf) && NearestCandidate(hitOf) && Lt(tMin, tMax)
    requires NeverPrunesHit(f, BuildNode(s, path, boxOf, sortOf, axisOf, time0, time1), hitOf, r)
    ensures var bvh := Hit(f, BuildNode(s, path, boxOf, sortOf, axisOf, time0, time1), hitOf, r, tMin, tMax);
            var list := ClosestHit(s, hitOf, r, tMin, tMax);
            && (bvh.None? <==> list.None?)
            && (bvh.Some? ==> bvh.value.t == list.value.t)
  {
    LeavesPermute(s, path, boxOf, sortOf, axisOf, time0, time1);
    HitMatchesList(f, BuildNode(s, path, boxOf, sortOf, axisOf, time0, time1), s, hitOf, r, tMin, tMax);
  }

  /** The pruning hypothesis is met by real geometry. The tree `from_slice` builds for one
      rectangle (`BuildSingle`) has the rectangle as its left leaf and the rectangle's
      padded box as its node box. A ray not parallel to any axis plane that crosses the
      rectangle away from its edges meets it strictly inside that box, so no non-empty
      interval on which the rectangle answers is pruned, and the tree answers every
      non-empty interval holding the crossing. `DemoRayCrossesRect` gives such a ray. */
  lemma RectLeafNeverPruned(f: FloatOps, rect: XyRects.XyRect, r: Ray)
    requires r.direction.x != 0.0 && r.direction.y != 0.0 && r.direction.z != 0.0
    requires var p := At(r, XyRects.PlaneT(f, rect, r));
             rect.x0 < p.x < rect.x1 && rect.y0 < p.y < rect.y1
    ensures var node := BvhNode(Some(Leaf(rect)), None, XyRects.BoundingBox(rect, 0.0, 0.0));
            var hitOf := (o: XyRects.XyRect, r: Ray, lo: Ext, hi: Ext) => XyRects.Hit(f, o, r, lo, hi);
            && NeverPrunesHit(f, node, hitOf, r)
            && (forall lo, hi | Lt(lo, hi) && InRange(XyRects.PlaneT(f, rect, r), lo, hi) ::
                  Hit(f, node, hitOf, r, lo, hi).Some?)
  {
    var node := BvhNode(Some(Leaf(rect)), None, XyRects.BoundingBox(rect, 0.0, 0.0));
    var hitOf := (o: XyRects.XyRect, r: Ray, lo: Ext, hi: Ext) => XyRects.Hit(f, o, r, lo, hi);
    var t := XyRects.PlaneT(f, rect, r);
    CrossingInsideBox(f, rect, r);
    assert Leaves(node) == multiset{rect};
    forall o, lo, hi | o in Leaves(node) && Lt(lo, hi) && hitOf(o, r, lo, hi).Some?
      ensures node.bbox.Some? && SlabHit(f, node.bbox.value, r, lo, hi)
    {
      assert o == rect;
      RectNeverPruned(f, rect, r, lo, hi);
    }
    forall lo, hi | Lt(lo, hi) && InRange(t, lo, hi)
      ensures Hit(f, node, hitOf, r, lo, hi).Some?
    {
      XyRects.HitIffCrossing(f, rect, r, lo, hi);
      RectNeverPruned(f, rect, r, lo, hi);
    }
  }

  /** Where such a ray crosses the plane, it is strictly inside the rectangle's box. */
  lemma CrossingInsideBox(f: FloatOps, rect: XyRects.XyRect, r: Ray)
    requires r.direction.z != 0.0
    requires var p := At(r, XyRects.PlaneT(f, rect, r));
             rect.x0 < p.x < rect.x1 && rect.y0 < p.y < rect.y1
    ensures StrictlyInside(XyRects.BoundingBox(rect, 0.0, 0.0).value, At(r, XyRects.PlaneT(f, rect, r)))
  {
    XyRects.CrossingOnPlane(f, rect, r);
  }

  /** A rectangle answer on a non-empty interval, at a crossing strictly inside the box,
      passes the slab test. */
  lemma RectNeverPruned(f: FloatOps, rect: XyRects.XyRect, r: Ray, lo: Ext, hi: Ext)
    requires r.direction.x != 0.0 && r.direction.y != 0.0 && r.direction.z != 0.0
    requires StrictlyInside(XyRects.BoundingBox(rect, 0.0, 0.0).value, At(r, XyRects.PlaneT(f, rect, r)))
    requires Lt(lo, hi) && XyRects.Hit(f, rect, r, lo, hi).Some?
    ensures SlabHit(f, XyRects.BoundingBox(rect, 0.0, 0.0).value, r, lo, hi)
  {
    XyRects.HitIffCrossing(f, rect, r, lo, hi);
    SlabHitAtInterior(f, XyRects.BoundingBox(rect, 0.0, 0.0).value, r, lo, hi, XyRects.PlaneT(f, rect, r));
  }

  /** The ray from (0.5, 0.5, -1) along (0.1, 0.1, 1) meets the unit square z = 0 at
      `t = 1`, inside `[0.001, +inf]`, at (0.6, 0.6, 0), away from its edges: it meets
      the hypothesis of `RectLeafNeverPruned`. */
  lemma DemoRayCrossesRect(f: FloatOps, rect: XyRects.XyRect, r: Ray)
    requires rect.x0 == 0.0 && rect.x1 == 1.0 && rect.y0 == 0.0 && rect.y1 == 1.0 && rect.k == 0.0
    requires r == Ray(Vec3(0.5, 0.5, -1.0), Vec3(0.1, 0.1, 1.0), 0.0)
    ensures InRange(XyRects.PlaneT(f, rect, r), Fin(0.001), PosInf)
    ensures var p := At(r, XyRects.PlaneT(f, rect, r));
            rect.x0 < p.x < rect.x1 && rect.y0 < p.y < rect.y1
  {
    DemoCrossingTime(f, rect, r);
    DemoCrossingPoint(f, rect, r);
  }

  lemma DemoCrossingTime(f: FloatOps, rect: XyRects.XyRect, r: Ray)
    requires rect.k == 0.0 && r == Ray(Vec3(0.5, 0.5, -1.0), Vec3(0.1, 0.1, 1.0), 0.0)
    ensures InRange(XyRects.PlaneT(f, rect, r), Fin(0.001), PosInf)
  {
    DemoPlaneT(f, rect, r);
  }

  lemma DemoCrossingPoint(f: FloatOps, rect: XyRects.XyRect, r: Ray)
    requires rect.x0 == 0.0 && rect.x1 == 1.0 && rect.y0 == 0.0 && rect.y1 == 1.0 && rect.k == 0.0
    requires r == Ray(Vec3(0.5, 0.5, -1.0), Vec3(0.1, 0.1, 1.0), 0.0)
    ensures var p := At(r, XyRects.PlaneT(f, rect, r));
            rect.x0 < p.x < rect.x1 && rect.y0 < p.y < rect.y1
  {
    DemoPlaneT(f, rect, r);
    DemoCrossing(r);
  }

  lemma DemoPlaneT(f: FloatOps, rect: XyRects.XyRect, r: Ray)
    requires rect.k == 0.0 && r == Ray(Vec3(0.5, 0.5, -1.0), Vec3(0.1, 0.1, 1.0), 0.0)
    ensures XyRects.PlaneT(f, rect, r) == 1.0
  {
  }

  lemma DemoCrossing(r: Ray)
    requires r == Ray(Vec3(0.5, 0.5, -1.0), Vec3(0.1, 0.1, 1.0), 0.0)
    ensures At(r, 1.0) == Vec3(0.6, 0.6, 0.0)
  {
  }
}
