# A verified model of a "Ray Tracing in One Weekend" renderer

This project models the core of a Rust path tracer that follows the *Ray Tracing in One Weekend* book series.

**Scene indexing.**
- axis-aligned bounding boxes and their slab test;
- hittable lists with a closest-hit search;
- the bounding-volume hierarchy (BVH), built by sorting and splitting a slice in place.

**Geometry.**
- hit records and face orientation;
- spheres and moving spheres;
- the three axis-aligned rectangles and six-sided boxes;
- constant-density volumes;
- the translate, rotate-about-y and flip-face decorators.

**Textures and noise.** Solid, checker, noise and image textures, and the Perlin noise tables.

**Light transport.**
- materials: Lambertian, metal, dielectric, diffuse light, isotropic;
- sampling densities: cosine, hittable, mixture;
- the vector, ray and orthonormal-basis algebra;
- the camera;
- the recursive `ray_color` integrator and `render_pixel`;
- 8-bit gamma quantisation of a pixel.

Modelling choices:

- **Numbers.** `f64` is a Dafny `real`. Every floating-point result is exact.
- **Transcendental functions.**
  - The square root, sine, cosine, tangent, logarithm, arccosine and `atan2` are uninterpreted functions in a `FloatOps` record, passed as the parameter `f`.
  - Lemmas assume only the laws they need: `SqrtLaw`, `SinCosLaw` and `LnLaw`.
  - A division whose divisor may be zero goes through `FDiv`. It is exact division when the divisor is non-zero and an unspecified value otherwise.
- **Infinite interval bounds.** The `f64::INFINITY` bounds of hit intervals are the datatype `Ext` = `NegInf | Fin(t) | PosInf`.
- **Randomness.** Every `fastrand` draw is an explicit parameter: a `Unit` value in [0, 1), or a supplied sequence of draws for the rejection loops.
- **Polymorphic objects.**
  - A `dyn Hittable` child is a `Shape`: a pair of functions, `hit` and `boundingBox`.
  - The aggregates (`HittableList`, `BvhNode`) are generic over their objects and are given `hitOf`/`boxOf` functions.
  - Materials, textures and densities are datatypes with one variant per implementation.
- **Code that mutates.**
  - `HittableList`, the box's side list and the output pixel are classes whose methods update their fields.
  - The BVH build sorts a Dafny `array` in place.
  - The Perlin shuffle swaps array elements in place.
  - The rotated box is folded by a nested loop.
  - `render_pixel` accumulates in a loop.

Each of these is a method proved against a specification function. Lemmas about that function then state what the source promises.

## Model

| member | source | states |
|---|---|---|
| Boxes.SurroundingBox | src/rt/shapes/aabb.rs:16-28 | the result contains both boxes and is contained in every box that contains both (the least enclosing box) |
| Boxes.SurroundingCommutes | src/rt/shapes/aabb.rs:16-28 | `surrounding_box(a, b) == surrounding_box(b, a)` |
| Boxes.SurroundingIdempotent | src/rt/shapes/aabb.rs:16-28 | surrounding a box with itself gives the box back |
| Boxes.ContainsTransitive | src/rt/shapes/aabb.rs:16-28 | box containment is transitive, so enclosing boxes stay enclosing when nested |
| Boxes.ContainsReflexive | src/rt/shapes/aabb.rs:16-28 | every box contains itself |
| Boxes.Ordered | src/rt/shapes/aabb.rs:35-38 | the conditional swap yields the pair either unchanged or swapped |
| Boxes.Hit | src/rt/shapes/aabb.rs:30-47 | the axis loop returns exactly the slab predicate: each axis is tested on its own against the caller's original interval (the narrowed bounds are shadowed, not carried over) |
| Boxes.SlabOrdered | src/rt/shapes/aabb.rs:32-38 | after the swap, the entry time is at most the exit time whenever min <= max on that axis |
| Boxes.SlabHitConservative | src/rt/shapes/aabb.rs:30-47 | a ray that passes strictly inside the box at a time strictly inside the interval is never rejected |
| Boxes.SlabHitAtInterior | src/rt/shapes/aabb.rs:30-47 | a ray not parallel to any axis plane that is strictly inside the box at a time in a non-empty interval passes the slab test on that interval |
| Boxes.SlabContains | src/rt/shapes/aabb.rs:32-38 | a time at which the ray is strictly between the slab planes lies strictly between the slab's entry and exit times |
| Boxes.SlabHitAcceptsMiss | src/rt/shapes/aabb.rs:40-46 | because the axes are tested separately, the test accepts a concrete ray that never enters the unit box |
| Boxes.SlabByMinMax | src/rt/shapes/aabb.rs:52-58 | the min/max form of the slab always has entry <= exit |
| Boxes.HitByMinMax | src/rt/shapes/aabb.rs:49-67 | the `_hit` loop returns exactly the min/max slab predicate |
| Boxes.HitsAgree | src/rt/shapes/aabb.rs:30-67 | `hit` and `_hit` agree when every direction component is non-zero and the box is ordered |
| Boxes.SlabsAgree | src/rt/shapes/aabb.rs:32-38 | the swap form and the min/max form compute the same slab on such an axis |
| Bboxes.Sides | src/rt/shapes/bbox.rs:17-65 | exactly six sides, each with the given material and each spanning p0..p1 on its two free axes |
| Bboxes.Bbox.New | src/rt/shapes/bbox.rs:17-72 | stores both corners and the material, and allocates a fresh side list holding those six sides |
| Bboxes.Bbox.Hit | src/rt/shapes/bbox.rs:76-78 | the box's hit is the closest hit over its six sides, and its `t` lies in the interval |
| Bboxes.Bbox.BoundingBox | src/rt/shapes/bbox.rs:80-82 | the box is exactly (p0, p1), unpadded, for any times |
| Bboxes.SidesHitInRange | src/rt/shapes/bbox.rs:18-65 | every side returns hits only inside the interval it is given |
| Bboxes.HitOnBox | src/rt/shapes/bbox.rs:76-78 | for an ordered box and a ray with no zero direction component, a hit point lies inside (p0, p1) |
| Bboxes.SideHitOnBox | src/rt/shapes/bbox.rs:18-65 | a hit on any single side lies inside (p0, p1) |
| BvhNodes.BoxCompare | src/rt/shapes/bvh_node.rs:70-78 | `a` sorts before `b` iff `a`'s box minimum on the axis, queried at times (0, 0), is smaller; callers must supply boxes (the `expect`) |
| BvhNodes.SortByKey | src/rt/shapes/bvh_node.rs:37-38 | a reference sort: the result is a permutation of the input, non-decreasing in the key |
| BvhNodes.Insert | src/rt/shapes/bvh_node.rs:37-38 | inserting into a sequence adds one element |
| BvhNodes.InsertPermutes | src/rt/shapes/bvh_node.rs:37-38 | insertion adds exactly the one element to the multiset |
| BvhNodes.InsertSorted | src/rt/shapes/bvh_node.rs:37-38 | insertion keeps a key-sorted sequence sorted |
| BvhNodes.InsertKeysAtLeast | src/rt/shapes/bvh_node.rs:37-38 | insertion keeps a lower bound on all keys |
| BvhNodes.InsertionSortSorts | src/rt/shapes/bvh_node.rs:37-38 | the reference sort meets the hypothesis the build assumes of `sort_by`: a permutation that is sorted by box minimum |
| BvhNodes.SortsByBoxKeepsLength | src/rt/shapes/bvh_node.rs:37-38 | a sort meeting that hypothesis keeps the slice length |
| BvhNodes.AllBoxedHalves | src/rt/shapes/bvh_node.rs:37-44 | when all objects have boxes, so do both halves of any permutation of them |
| BvhNodes.Combine | src/rt/shapes/bvh_node.rs:48-61 | the node box is the surrounding box of both children's boxes, the one box when only one exists, and `None` otherwise |
| BvhNodes.Half | src/rt/shapes/bvh_node.rs:39 | the split point is the lower half of the length |
| BvhNodes.HalfIsDiv | src/rt/shapes/bvh_node.rs:39 | that split point equals `len / 2` |
| BvhNodes.Splice | src/rt/shapes/bvh_node.rs:14-64 | replacing a slice of the array leaves the prefix and suffix unchanged and places the new contents between them |
| BvhNodes.FromSlice | src/rt/shapes/bvh_node.rs:14-64 | the in-place build returns the specified tree, and the array is changed only on [lo, hi), where it holds the build's arrangement of the slice |
| BvhNodes.FromSorted | src/rt/shapes/bvh_node.rs:37-44 | the three-or-more case: sort in place, recurse on `[..len/2]` and `[len/2..]`, and the same two results |
| BvhNodes.WriteBack | src/rt/shapes/bvh_node.rs:37-38 | writing the sorted slice back changes the array only on [lo, hi) |
| BvhNodes.BuildStep | src/rt/shapes/bvh_node.rs:37-61 | the node built from the two recursive halves is the specified node, and the two arranged halves concatenate to the whole arrangement |
| BvhNodes.ArrangeLength | src/rt/shapes/bvh_node.rs:14-64 | the arrangement keeps the slice length |
| BvhNodes.FromList | src/rt/shapes/bvh_node.rs:66-68 | building from a list reorders `list.objects` into the build's arrangement and returns the specified tree |
| BvhNodes.Hit | src/rt/shapes/bvh_node.rs:94-106 | no box, or a failed slab test, gives `None` |
| BvhNodes.ChildHit | src/rt/shapes/bvh_node.rs:94-106 | an absent child never hits |
| BvhNodes.ArrangePermutes | src/rt/shapes/bvh_node.rs:37-68 | the build only permutes the slice: the arrangement's multiset equals the input's |
| BvhNodes.LeavesPermute | src/rt/shapes/bvh_node.rs:14-64 | the tree's leaves, as a multiset, are exactly the input objects |
| BvhNodes.LeavesOf | src/rt/shapes/bvh_node.rs:14-64 | the same, by induction on the slice |
| BvhNodes.BuildMany | src/rt/shapes/bvh_node.rs:37-44 | with three or more objects, the node combines the trees built from the first `len/2` and the remaining objects of the sorted slice |
| BvhNodes.LeavesCombine | src/rt/shapes/bvh_node.rs:42-44 | an inner node's leaves are the union of its children's |
| BvhNodes.ArrangeMany | src/rt/shapes/bvh_node.rs:37-44 | the arrangement of three or more objects is the left half's arrangement followed by the right half's |
| BvhNodes.LeavesPair | src/rt/shapes/bvh_node.rs:33-36 | a two-object node holds exactly those two objects |
| BvhNodes.BuildEmpty | src/rt/shapes/bvh_node.rs:30-61 | an empty slice yields no children and no box |
| BvhNodes.BuildSingle | src/rt/shapes/bvh_node.rs:32-58 | one object becomes the left leaf, with no right child and that object's box |
| BvhNodes.BuildPair | src/rt/shapes/bvh_node.rs:33-36 | two objects are not reordered in the slice; they become the two leaves, ordered so that the left one's key on the chosen axis is at most the right one's |
| BvhNodes.BuildSplits | src/rt/shapes/bvh_node.rs:37-44 | for three or more objects there is a sorted permutation whose first `len/2` objects build the left subtree and the rest the right |
| BvhNodes.HitInRange | src/rt/shapes/bvh_node.rs:94-106 | a result lies in [t_min, t_max], and its `t` is at most the left child's hit `t` (the right child is searched in [t_min, left.t]) |
| BvhNodes.ChildHitInRange | src/rt/shapes/bvh_node.rs:94-106 | a child's hit lies in the interval it was given |
| BvhNodes.HitIsNearest | src/rt/shapes/bvh_node.rs:94-106 | on a non-empty interval (`t_min < t_max`), the tree misses iff every leaf misses the whole interval; otherwise it returns one leaf's answer to the whole interval, whose `t` is at most every leaf hit's `t`. This holds when leaves answer with their nearest candidate in the interval and no node's slab test rejects a non-empty interval on which a leaf below it answers (`NeverPrunesHit`) |
| BvhNodes.ChildHitIsNearest | src/rt/shapes/bvh_node.rs:94-106 | the same nearest-hit property for an optional child, over its leaves |
| BvhNodes.HitFromLeaf | src/rt/shapes/bvh_node.rs:94-106 | whatever the tree answers is some leaf's answer to the whole interval `[t_min, t_max]` |
| BvhNodes.ChildHitFromLeaf | src/rt/shapes/bvh_node.rs:94-106 | the same for an optional child |
| BvhNodes.Widen | src/rt/shapes/hittable_list.rs:37-44 | an object that answers a narrower interval `[lo, hi']` gives the same answer to any wider `[lo, hi]` |
| BvhNodes.TiedSearch | src/rt/shapes/bvh_node.rs:102-105 | when the left child hits exactly at `t_min`, the right child is searched on the one-point interval `[t_min, t_min]`; whatever it returns ties with the left hit, so the combined answer is still the nearest over both children |
| BvhNodes.NarrowedSearch | src/rt/shapes/bvh_node.rs:102-105 | the left child's nearest hit, combined with the right child's nearest hit searched up to the left hit's `t`, is the nearest hit over both children |
| BvhNodes.HitMatchesList | src/rt/shapes/bvh_node.rs:94-106 | on a non-empty interval, a BVH and a hittable list with the same objects both miss, or both hit at the same `t` |
| BvhNodes.BuiltMatchesList | src/rt/shapes/bvh_node.rs:14-106 | on a non-empty interval, the tree built from a slice answers like the list of that slice: the same miss, or the same nearest `t` |
| BvhNodes.RectLeafNeverPruned | src/rt/shapes/bvh_node.rs:32-58 | the pruning hypothesis holds for real geometry: the one-leaf tree built for a rectangle, with the rectangle's padded box, is never pruned for a ray not parallel to an axis plane that crosses the rectangle away from its edges, and that tree answers every non-empty interval holding the crossing |
| BvhNodes.CrossingInsideBox | src/rt/shapes/xy_rect.rs:58-65 | such a crossing is strictly inside the rectangle's padded box |
| BvhNodes.RectNeverPruned | src/rt/shapes/aabb.rs:30-47 | a rectangle answer on a non-empty interval, at a crossing strictly inside the box, passes the slab test |
| BvhNodes.DemoRayCrossesRect | src/rt/shapes/xy_rect.rs:30-41 | a concrete ray meets that hypothesis: from (0.5, 0.5, -1) along (0.1, 0.1, 1) it crosses the unit square at `t = 1`, inside `[0.001, +inf]`, away from the edges |
| BvhNodes.DemoCrossingTime | src/rt/shapes/xy_rect.rs:31-34 | that ray crosses the plane z = 0 at a time in `[0.001, +inf]` |
| BvhNodes.DemoCrossingPoint | src/rt/shapes/xy_rect.rs:36-41 | and at a point strictly inside the unit square |
| HittableLists.HittableList.Empty | src/rt/shapes/hittable_list.rs:8-11 | a new list is empty |
| HittableLists.HittableList.FromObject | src/rt/shapes/hittable_list.rs:13-17 | the list holds exactly the one object |
| HittableLists.HittableList.FromObjects | src/rt/shapes/hittable_list.rs:19-21 | the list holds exactly the given objects |
| HittableLists.HittableList.Clear | src/rt/shapes/hittable_list.rs:23-25 | `clear` empties the list |
| HittableLists.HittableList.Add | src/rt/shapes/hittable_list.rs:27-29 | `add` appends at the end and leaves earlier members unchanged |
| HittableLists.HittableList.Hit | src/rt/shapes/hittable_list.rs:33-45 | the scanning loop returns the closest-hit specification |
| HittableLists.HittableList.BoundingBox | src/rt/shapes/hittable_list.rs:47-55 | the folding loop returns the list-box specification |
| HittableLists.ClosestHit | src/rt/shapes/hittable_list.rs:33-45 | an empty list never hits |
| HittableLists.ListBox | src/rt/shapes/hittable_list.rs:47-55 | an empty list has no box |
| HittableLists.NoneAbsorbs | src/rt/shapes/hittable_list.rs:48-51 | once a prefix has no box, the whole list has none |
| HittableLists.ClosestInRange | src/rt/shapes/hittable_list.rs:37-44 | if members only return hits inside their interval, the result's `t` lies in [t_min, t_max] |
| HittableLists.ClosestFromMember | src/rt/shapes/hittable_list.rs:37-44 | a result is the record some member returned for a narrowed interval |
| HittableLists.ClosestNeverRecedes | src/rt/shapes/hittable_list.rs:35-41 | appending a member never moves the closest hit farther away |
| HittableLists.ClosestIsNearest | src/rt/shapes/hittable_list.rs:37-44 | if each member returns its nearest candidate in the interval it is given, the list misses iff every member misses; otherwise the result is some member's own hit and no member's hit is nearer |
| HittableLists.ListBoxEnvelope | src/rt/shapes/hittable_list.rs:47-55 | the box is `None` iff the list is empty or some member has no box; otherwise it contains every member's box |
| HitRecords.GetFaceNormal | src/rt/shapes/hit_record.rs:40-49 | front face iff `dot(direction, outward) < 0`; the normal is `outward` on a front face and its negation otherwise |
| HitRecords.New | src/rt/shapes/hit_record.rs:14-33 | `p`, `t`, `u`, `v` and material are stored as given; the face is oriented against the ray |
| HitRecords.SetFaceNormal | src/rt/shapes/hit_record.rs:35-37 | only `front_face` and `normal` change, and they are oriented against the ray |
| HitRecords.NormalFacesRay | src/rt/shapes/hit_record.rs:40-49 | the stored normal never points along the ray: `dot(direction, normal) <= 0` |
| HitRecords.GrazingIsBackFace | src/rt/shapes/hit_record.rs:41-46 | a grazing hit is a back face with the negated normal |
| HitRecords.SetFaceNormalAfterNew | src/rt/shapes/hit_record.rs:14-37 | re-orienting a fresh record against the same ray and normal changes nothing |
| FlipFaces.Hit | src/rt/shapes/flip_face.rs:18-22 | a child miss gives `None`; otherwise the child's record with only `front_face` negated |
| FlipFaces.AsShape | src/rt/shapes/flip_face.rs:16-27 | the flipped object as a shape behaves as `Hit` and `BoundingBox` |
| FlipFaces.FlipTwice | src/rt/shapes/flip_face.rs:18-22 | flipping twice reproduces the child's record exactly |
| FlipFaces.FlipKeepsRange | src/rt/shapes/flip_face.rs:18-22 | flipping keeps hits inside the interval |
| Translates.MovedRay | src/rt/shapes/translate.rs:20 | the moved ray starts at origin minus offset, with the same direction and time |
| Translates.Hit | src/rt/shapes/translate.rs:19-25 | a child miss gives `None`; otherwise `t`, `u`, `v` and material come from the child, `p` is shifted by the offset, and the face is re-oriented against the moved ray |
| Translates.BoundingBox | src/rt/shapes/translate.rs:27-33 | the child's box with both corners shifted by the offset, or `None` when the child has none |
| Translates.AsShape | src/rt/shapes/translate.rs:17-34 | the translated object as a shape behaves as `Hit` and `BoundingBox` |
| Translates.HitPointOnRay | src/rt/shapes/translate.rs:20-22 | if the child's `p` is on the moved ray at `t`, the returned `p` is on the original ray at `t` |
| Translates.FrontFaceRecomputed | src/rt/shapes/translate.rs:23 | the face is recomputed from the child's already-oriented normal, so it is a front face whenever that normal opposes the direction |
| Translates.TranslateKeepsRange | src/rt/shapes/translate.rs:19-25 | translating keeps hits inside the interval |
| Translates.ExtentUnchanged | src/rt/shapes/translate.rs:27-33 | the translated box has the child box's extent |
| RotateYs.SetE | src/rt/vec3.rs:47-53 | `set` on an accumulator changes only the addressed slot |
| RotateYs.Lower | src/rt/shapes/rotate_y.rs:36-39 | one step of the loop's `min` update: each component is at most both the accumulator's and the corner's, and equals one of them (their minimum) |
| RotateYs.Upper | src/rt/shapes/rotate_y.rs:36-39 | one step of the loop's `max` update: each component is at least both the accumulator's and the corner's, and equals one of them (their maximum) |
| RotateYs.Corners | src/rt/shapes/rotate_y.rs:23-42 | the loop visits eight rotated corners |
| RotateYs.ToVec | src/rt/shapes/rotate_y.rs:44-46 | a finite accumulator read back as a point |
| RotateYs.Include | src/rt/shapes/rotate_y.rs:36-39 | the inner-loop body lowers `min` and raises `max` to the tested corner |
| RotateYs.New | src/rt/shapes/rotate_y.rs:15-53 | stores the child and sin/cos of the angle in radians; the box is `None` iff the child has none, and otherwise it is the rotated box |
| RotateYs.CornerEnvelope | src/rt/shapes/rotate_y.rs:20-42 | the triple loop folding corners into `min`/`max` from +inf/-inf yields the rotated box |
| RotateYs.FoldStep | src/rt/shapes/rotate_y.rs:23-42 | one loop step extends the fold over the corners visited so far by the next corner |
| RotateYs.CornerIndex | src/rt/shapes/rotate_y.rs:23-42 | the loop counters (i, j, k) visit corner 4i + 2j + k |
| RotateYs.ToObject | src/rt/shapes/rotate_y.rs:61-77 | the world-to-object rotation leaves y unchanged |
| RotateYs.ToWorld | src/rt/shapes/rotate_y.rs:85-101 | the object-to-world rotation leaves y unchanged |
| RotateYs.RotatedRay | src/rt/shapes/rotate_y.rs:58-79 | only the x and z components of origin and direction change; y and time are kept |
| RotateYs.Hit | src/rt/shapes/rotate_y.rs:57-106 | a child miss gives `None`; otherwise `t`, `u`, `v` and material come from the child, `p` and `normal` are rotated back, and the face is re-oriented against the object-space ray |
| RotateYs.AsShape | src/rt/shapes/rotate_y.rs:55-111 | the rotated object as a shape behaves as `Hit` and `BoundingBox` |
| RotateYs.FoldBounds | src/rt/shapes/rotate_y.rs:36-39 | the folded `min`/`max` bound every folded point |
| RotateYs.FoldFinite | src/rt/shapes/rotate_y.rs:20-39 | after at least one point the accumulators are finite, and the x and y bounds are attained by folded points |
| RotateYs.RotatedBoxContainsCorners | src/rt/shapes/rotate_y.rs:23-42 | the box contains all eight rotated child-box corners |
| RotateYs.RotatedBoxOrdered | src/rt/shapes/rotate_y.rs:20-39 | min <= max componentwise, although the accumulators start at +inf and -inf |
| RotateYs.RotatedBoxKeepsY | src/rt/shapes/rotate_y.rs:29-35 | the box's y-range is the child's y-range |
| RotateYs.RotationInverse | src/rt/shapes/rotate_y.rs:61-101 | the two maps are mutual inverses when sin^2 + cos^2 = 1 |
| RotateYs.ObjectThenWorld | src/rt/shapes/rotate_y.rs:61-101 | rotating into object space and back is the identity |
| RotateYs.WorldThenObject | src/rt/shapes/rotate_y.rs:61-101 | rotating out to world space and back is the identity |
| RotateYs.RotateKeepsRange | src/rt/shapes/rotate_y.rs:57-106 | rotating keeps hits inside the interval |
| XyRects.PlaneT | src/rt/shapes/xy_rect.rs:31 | for d.z != 0, the ray reaches z = k at `t` |
| XyRects.BoundingBox | src/rt/shapes/xy_rect.rs:58-65 | the box is exact in x and y, padded by 0.0001 on either side of z = k, so it strictly straddles the plane and contains every point of the rectangle |
| XyRects.AsShape | src/rt/shapes/xy_rect.rs:28-66 | the rectangle as a shape behaves as `Hit` and `BoundingBox` |
| XyRects.HitIffCrossing | src/rt/shapes/xy_rect.rs:30-56 | a hit occurs iff the crossing time is in [t_min, t_max] and (x, y) is in the inclusive rectangle; the record then has that `t`, that point and the rectangle's material |
| XyRects.HitOnRect | src/rt/shapes/xy_rect.rs:30-56 | a hit is in range, within the rectangle, and on the plane z = k when d.z != 0 |
| XyRects.CrossingOnPlane | src/rt/shapes/xy_rect.rs:31-46 | the crossing point lies on z = k |
| XyRects.HitInsideBox | src/rt/shapes/xy_rect.rs:30-65 | a hit point lies inside the bounding box |
| XyRects.RectHitsInRange | src/rt/shapes/xy_rect.rs:32-34 | hits stay inside the interval |
| XyRects.UVInUnitSquare | src/rt/shapes/xy_rect.rs:43-44 | `u` and `v` lie in [0, 1] for non-degenerate bounds |
| XyRects.NormalFacesRay | src/rt/shapes/xy_rect.rs:45-55 | the outward normal +z is oriented by `HitRecord::new`: front face iff d.z < 0 |
| XzRects.PlaneT | src/rt/shapes/xz_rect.rs:31 | for d.y != 0, the ray reaches y = k at `t` |
| XzRects.BoundingBox | src/rt/shapes/xz_rect.rs:58-63 | the box is exact in x and z, padded by 0.0001 on either side of y = k, so it strictly straddles the plane and contains every point of the rectangle |
| XzRects.AsShape | src/rt/shapes/xz_rect.rs:28-64 | the rectangle as a shape behaves as `Hit` and `BoundingBox` |
| XzRects.Area | src/rt/shapes/xz_rect.rs:69 | the area is positive for non-degenerate bounds |
| XzRects.Cosine | src/rt/shapes/xz_rect.rs:71 | the cosine term `abs(dot(v, n)) / |v|` is non-negative |
| XzRects.Density | src/rt/shapes/xz_rect.rs:68-73 | `pdf * (cosine * area) == t^2 * |v|^2` whenever the divisor is non-zero |
| XzRects.Random | src/rt/shapes/xz_rect.rs:77-84 | origin plus the returned direction is a point with y = k, x in [x0, x1) and z in [z0, z1) |
| XzRects.HitIffCrossing | src/rt/shapes/xz_rect.rs:30-56 | a hit occurs iff the crossing time is in range and (x, z) is in the inclusive rectangle; the record then has that `t`, that point and the material |
| XzRects.HitOnRect | src/rt/shapes/xz_rect.rs:30-56 | a hit is in range, within the rectangle, and on y = k when d.y != 0 |
| XzRects.CrossingOnPlane | src/rt/shapes/xz_rect.rs:31-46 | the crossing point lies on y = k |
| XzRects.HitInsideBox | src/rt/shapes/xz_rect.rs:30-63 | a hit point lies inside the bounding box |
| XzRects.RectHitsInRange | src/rt/shapes/xz_rect.rs:32-34 | hits stay inside the interval |
| XzRects.UVInUnitSquare | src/rt/shapes/xz_rect.rs:43-44 | `u` and `v` lie in [0, 1] for non-degenerate bounds |
| XzRects.NormalFacesRay | src/rt/shapes/xz_rect.rs:45-55 | the outward normal +y is oriented: front face iff d.y < 0 |
| XzRects.PdfValueCases | src/rt/shapes/xz_rect.rs:65-75 | `pdf_value` is 0 when the ray from `origin` (t_min 0.001) misses, and the solid-angle density of the hit otherwise |
| XzRects.PdfValueNonNegative | src/rt/shapes/xz_rect.rs:65-75 | `pdf_value` is non-negative for a non-degenerate rectangle |
| XzRects.DensityNonNegative | src/rt/shapes/xz_rect.rs:68-73 | the density of a hit is non-negative |
| YzRects.PlaneT | src/rt/shapes/yz_rect.rs:31 | for d.x != 0, the ray reaches x = k at `t` |
| YzRects.BoundingBox | src/rt/shapes/yz_rect.rs:58-63 | the box is exact in y and z, padded by 0.0001 on either side of x = k, so it strictly straddles the plane and contains every point of the rectangle |
| YzRects.AsShape | src/rt/shapes/yz_rect.rs:28-64 | the rectangle as a shape behaves as `Hit` and `BoundingBox` |
| YzRects.HitIffCrossing | src/rt/shapes/yz_rect.rs:30-56 | a hit occurs iff the crossing time is in range and (y, z) is in the inclusive rectangle; the record then has that `t`, that point and the material |
| YzRects.HitOnRect | src/rt/shapes/yz_rect.rs:30-56 | a hit is in range, within the rectangle, and on x = k when d.x != 0 |
| YzRects.CrossingOnPlane | src/rt/shapes/yz_rect.rs:31-46 | the crossing point lies on x = k |
| YzRects.HitInsideBox | src/rt/shapes/yz_rect.rs:30-63 | a hit point lies inside the bounding box |
| YzRects.RectHitsInRange | src/rt/shapes/yz_rect.rs:32-34 | hits stay inside the interval |
| YzRects.UVInUnitSquare | src/rt/shapes/yz_rect.rs:43-44 | `u` (from y) and `v` (from z) lie in [0, 1] for non-degenerate bounds |
| YzRects.NormalFacesRay | src/rt/shapes/yz_rect.rs:45-55 | the outward normal +x is oriented: front face iff d.x < 0 |
| Spheres.GetSphereUv | src/rt/shapes/sphere.rs:22-32 | `u * 2pi == atan2(-z, x) + pi` and `v * pi == acos(-y)` |
| Spheres.NearestRoot | src/rt/shapes/sphere.rs:41-54 | a returned root lies in [t_min, t_max] |
| Spheres.HitAt | src/rt/shapes/sphere.rs:36-68 | a hit exists iff a root is selected; the record has that root as `t`, the point on the ray, the material and the oriented outward normal |
| Spheres.OutwardNormal | src/rt/shapes/sphere.rs:57 | `normal * radius == p - center` for a non-zero radius |
| Spheres.Hit | src/rt/shapes/sphere.rs:36-68 | a returned `t` lies in [t_min, t_max] |
| Spheres.RadiusBox | src/rt/shapes/sphere.rs:70-73 | for a non-negative radius, a point is inside the box iff it is within `radius` of the center on every axis |
| Spheres.AsShape | src/rt/shapes/sphere.rs:34-74 | the sphere as a shape behaves as `Hit` and `BoundingBox` |
| Spheres.RootsAre | src/rt/shapes/sphere.rs:41-54 | for a non-negative discriminant, the roots of the quadratic are exactly the two candidates |
| Spheres.RootIsCandidate | src/rt/shapes/sphere.rs:41-54 | every root is one of the two candidates |
| Spheres.CandidateIsRoot | src/rt/shapes/sphere.rs:45-54 | both candidates are roots |
| Spheres.NoRoot | src/rt/shapes/sphere.rs:41-44 | a negative discriminant means there is no root |
| Spheres.NearBeforeFar | src/rt/shapes/sphere.rs:48-54 | the smaller root is tried first |
| Spheres.NearestRootIsNearest | src/rt/shapes/sphere.rs:41-54 | the selected root is the nearest root in the interval, and `None` means no root lies in it |
| Spheres.DistanceAlongRay | src/rt/shapes/sphere.rs:37-40 | the quadratic measures the squared distance of `r.at(t)` from the center minus radius^2 |
| Spheres.RootsOnSphere | src/rt/shapes/sphere.rs:37-40 | `t` is a root iff `r.at(t)` is on the sphere |
| Spheres.HitOnSphere | src/rt/shapes/sphere.rs:36-68 | a hit point lies on the sphere |
| Spheres.HitIsNearest | src/rt/shapes/sphere.rs:36-68 | a miss means no point of the ray in the interval is on the sphere; a hit is the nearest such point |
| Spheres.HitInsideBox | src/rt/shapes/sphere.rs:36-73 | a hit point lies inside the bounding box |
| Spheres.OnSphereInsideBox | src/rt/shapes/sphere.rs:70-73 | every point on the sphere is inside the radius box |
| MovingSpheres.Center | src/rt/shapes/mooving_sphere.rs:35-38 | the center moves linearly: its offset from center0 is the time fraction of center1 - center0 |
| MovingSpheres.Hit | src/rt/shapes/mooving_sphere.rs:42-74 | a returned `t` lies in [t_min, t_max] |
| MovingSpheres.BoundingBox | src/rt/shapes/mooving_sphere.rs:76-83 | the box is the surrounding box of the sphere's radius boxes at both queried times: it contains both, and lies inside every box that contains both |
| MovingSpheres.AsShape | src/rt/shapes/mooving_sphere.rs:40-84 | the moving sphere as a shape behaves as `Hit` and `BoundingBox` |
| MovingSpheres.CenterEndpoints | src/rt/shapes/mooving_sphere.rs:35-38 | `center(time0) == center0` and `center(time1) == center1` when time1 != time0 |
| MovingSpheres.HitIsSphereAtRayTime | src/rt/shapes/mooving_sphere.rs:42-74 | a hit is the static sphere's hit at the center for the ray's own time, so it lies on that sphere and is the nearest such point in the interval |
| ConstantVolumes.FromTexture | src/rt/shapes/constant_volume.rs:25-31 | stores the boundary and an isotropic phase function; `neg_inv_density * d == -1` for a non-zero density |
| ConstantVolumes.FromColor | src/rt/shapes/constant_volume.rs:21-23 | the same, with the colour wrapped in a solid texture |
| ConstantVolumes.InsideSegment | src/rt/shapes/constant_volume.rs:39-60 | the clamped entry and exit lie in [t_min, t_max], and the entry is >= 0 |
| ConstantVolumes.Hit | src/rt/shapes/constant_volume.rs:35-89 | no inside segment gives `None`; a hit is a point on the ray with normal (1,0,0), front face, u = v = 0 and the phase-function material |
| ConstantVolumes.HitDistance | src/rt/shapes/constant_volume.rs:64 | the sampled distance is >= 0 for a draw in (0, 1] and a non-positive `neg_inv_density` |
| ConstantVolumes.NonPositiveProduct | src/rt/shapes/constant_volume.rs:64 | a non-positive factor times the logarithm of a draw in (0, 1] is non-negative |
| ConstantVolumes.HitInSegment | src/rt/shapes/constant_volume.rs:62-71 | given a non-negative distance, the hit `t = entry + distance/|d|` lies in [entry, exit], inside the interval and >= 0 |
| ConstantVolumes.NeedsTwoBoundaryHits | src/rt/shapes/constant_volume.rs:39-40 | unless the boundary is hit twice (the second search from rec1.t + 0.0001), there is no hit |
| ConstantVolumes.EmptyIntervalMisses | src/rt/shapes/constant_volume.rs:46-56 | when the clamped entry is not before the clamped exit, there is no hit |
| Noise.Identity | src/rt/noise/perlin.rs:17-21 | the table starts as 0..255 |
| Noise.Swap | src/rt/noise/perlin.rs:27-28 | a swap exchanges two entries and keeps all others |
| Noise.Shuffle | src/rt/noise/perlin.rs:23-31 | the shuffle keeps the length |
| Noise.SwapMultiset | src/rt/noise/perlin.rs:27-28 | a swap preserves the multiset |
| Noise.ShuffleMultiset | src/rt/noise/perlin.rs:23-31 | the whole shuffle preserves the multiset |
| Noise.Permute | src/rt/noise/perlin.rs:23-31 | the in-place loop (i from n-1 down to 0, target in [0, i]) produces the shuffle and preserves the array's multiset |
| Noise.GeneratePerm | src/rt/noise/perlin.rs:17-21 | the result is the shuffle of 0..255, a permutation of 0..255 |
| Noise.New | src/rt/noise/perlin.rs:80-89 | `ranvec` has 256 entries and each of `perm_x`, `perm_y`, `perm_z` is a shuffled permutation of 0..255 |
| Noise.Lattice | src/rt/noise/perlin.rs:69-71 | `(i + d) & 255` lies in [0, 255] and agrees with i + d modulo 256, negatives included |
| Noise.Cell | src/rt/noise/perlin.rs:61-63 | `p.floor() as i32`: the floor when it fits in `i32`, otherwise `i32::MIN` or `i32::MAX` |
| Noise.LatticeAtOverflow | src/rt/noise/perlin.rs:69-71 | at the saturated cell `i32::MAX`, the corner `i + 1` has the same low byte as the wrapped `i32::MIN`, namely 0 |
| Noise.XorIndex | src/rt/noise/perlin.rs:72-73 | the XOR of three table entries, read as an index into `ranvec`; that it is below 256 holds by typing alone, since the tables hold `bv8` entries |
| Noise.Corners | src/rt/noise/perlin.rs:66-75 | eight corner gradients |
| Noise.FillCorners | src/rt/noise/perlin.rs:66-75 | the nested loops fill the fresh 2x2x2 array with the lattice gradient of every corner |
| Noise.NoiseMethod | src/rt/noise/perlin.rs:56-78 | the method computes the noise specification, with the fractions `p - floor(p)` and the saturated cells of `Cell` |
| Noise.Turbulence | src/rt/noise/perlin.rs:95-107 | turbulence is >= 0 and is 0 for depth 0 |
| Noise.TurbWithDepth | src/rt/noise/perlin.rs:95-107 | the octave loop computes the turbulence specification |
| Noise.Turb | src/rt/noise/perlin.rs:91-93 | `turb` is turbulence with depth 7 |
| Noise.OctavesHomogeneous | src/rt/noise/perlin.rs:99-104 | the octave sum scales linearly with its starting weight |
| Noise.OctaveStep | src/rt/noise/perlin.rs:99-104 | each octave halves the weight and doubles the point: depth n + 1 is the noise at p plus half of depth n at 2p |
| Noise.LatticeWraps | src/rt/noise/perlin.rs:69-71 | lattice indices wrap: cell -1 is 255 and 255 + 1 is 0 |
| Textures.NewSolidColor | src/rt/textures/solid_color.rs:10-12 | stores the colour unchanged |
| Textures.SolidColorConstant | src/rt/textures/solid_color.rs:16-18 | `value` is the stored colour, whatever `u`, `v` and `p` are |
| Textures.FromTextures | src/rt/textures/checker_texture.rs:20-22 | stores `even` as even and `odd` as odd |
| Textures.FromColors | src/rt/textures/checker_texture.rs:13-18 | wraps each colour in a solid texture, keeping its role |
| Textures.CheckerOfColors | src/rt/textures/checker_texture.rs:13-30 | a checker of two colours gives the odd colour when the sine product is negative and the even one otherwise, including at 0 |
| Textures.CheckerDelegates | src/rt/textures/checker_texture.rs:26-30 | the chosen texture is evaluated at the same `u`, `v` and `p` |
| Textures.NewNoiseTexture | src/rt/textures/noise_texture.rs:15-20 | stores the scale and the noise |
| Textures.NoiseGrey | src/rt/textures/noise_texture.rs:24-26 | all three channels are equal and lie in [0, 1], given sin in [-1, 1] |
| Textures.NoiseIgnoresUV | src/rt/textures/noise_texture.rs:24-26 | the value does not depend on `u` and `v` |
| Textures.GreyLevels | src/rt/textures/noise_texture.rs:25 | the grey level `0.5 * (1 + s)` lies in [0, 1] for s in [-1, 1] |
| Textures.NewImage | src/rt/textures/image_texture.rs:14-22 | stores the buffer and dimensions; `bytes_per_scanline == width * bytes_per_pixel` |
| Textures.Column | src/rt/textures/image_texture.rs:48-55 | the column index is < width, for width >= 1 |
| Textures.Row | src/rt/textures/image_texture.rs:48-55 | the row index is < height, for height >= 1 |
| Textures.ImageValue | src/rt/textures/image_texture.rs:46-65 | a returned colour reads the three bytes at the pixel of the clamped, v-flipped (u, v): each channel times 255 is its byte, so it lies in [0, 1]; `None` only for an empty image or a read past the buffer |
| Textures.ImageDefined | src/rt/textures/image_texture.rs:57-63 | for a well-formed buffer, the read is always in bounds |
| Textures.IndexInBounds | src/rt/textures/image_texture.rs:58-63 | index + 2 < width * height * bpp for an in-range column and row and bpp >= 3 |
| Textures.ColumnOfOne | src/rt/textures/image_texture.rs:48-55 | u = 1 maps to the last column |
| Textures.RowFlipped | src/rt/textures/image_texture.rs:48-55 | v = 1 maps to row 0 and v = 0 to the last row |
| Textures.ImageIgnoresPoint | src/rt/textures/image_texture.rs:46 | the value does not depend on `p` |
| Vectors.Get | src/rt/vec3.rs:39-45 | `get(0) == x`, `get(1) == y`, any other index gives z |
| Vectors.Set | src/rt/vec3.rs:47-53 | `get(i)` afterwards returns the new value and every other slot is unchanged |
| Vectors.GetSet | src/rt/vec3.rs:39-53 | reading after `set` gives the written value on the same slot and the old value elsewhere |
| Vectors.LengthSquared | src/rt/vec3.rs:60-62 | `length_squared(v) == dot(v, v)` |
| Vectors.LengthSquaredNonNeg | src/rt/vec3.rs:60-62 | `length_squared` is non-negative |
| Vectors.ClampVec | src/rt/vec3.rs:68-74 | each component lies in [min, max], and components already in range are unchanged |
| Vectors.SqrtVec | src/rt/vec3.rs:76-82 | each non-negative component is replaced by its non-negative square root |
| Vectors.Cross | src/rt/vec3.rs:88-94 | the cross product is orthogonal to both arguments |
| Vectors.Neg | src/rt/vec3.rs:112-120 | `v + (-v)` is zero |
| Vectors.Sub | src/rt/vec3.rs:134-142 | `(u - v) + v == u` |
| Vectors.Div | src/rt/vec3.rs:174-182 | `(v / s) * s == v` for s != 0 |
| Vectors.DotSymmetric | src/rt/vec3.rs:84-86 | `dot` is symmetric |
| Vectors.ReflectNegatesNormal | src/rt/vec3.rs:100-102 | for a unit normal, reflection negates the normal component |
| Vectors.ReflectInvolution | src/rt/vec3.rs:100-102 | for a unit normal, reflecting twice gives the vector back |
| Vectors.NegInvolution | src/rt/vec3.rs:112-120 | negation is an involution |
| Vectors.ScaleCommutes | src/rt/vec3.rs:156-171 | `f64 * Vec3` equals `Vec3 * f64`, componentwise |
| Vectors.NearZeroBounds | src/rt/vec3.rs:55-58 | `near_zero` holds iff every component is within 1e-8 of 0 |
| Vectors.RefractAlongNormal | src/rt/vec3.rs:104-109 | the refracted direction points through the surface: its dot with the unit normal is <= 0 |
| Vectors.TangentPart | src/rt/vec3.rs:104-107 | the perpendicular part `uv + cos_theta * n` is orthogonal to the unit normal |
| Rays.At | src/rt/ray.rs:17-19 | `at(t) - origin == t * direction` |
| Rays.AtZero | src/rt/ray.rs:17-19 | `at(0) == origin` |
| Rays.AtDifference | src/rt/ray.rs:17-19 | `at(t1) - at(t0) == (t1 - t0) * direction` |
| Onbs.ReferenceAxis | src/rt/onb.rs:12-16 | the reference axis is Y when abs(w.x) > 0.9 and X otherwise |
| Onbs.BuildFromW | src/rt/onb.rs:10-20 | `w` is the unit vector of n, `v` is the unit vector of `cross(w, a)`, and `u` is orthogonal to `w` and `v` |
| Onbs.BuildFromWOrthonormal | src/rt/onb.rs:10-20 | for non-zero n the basis is orthonormal, and `w` scaled by the length of n is n |
| Onbs.UnitVectorIsUnit | src/rt/vec3.rs:96-98 | the unit vector of a non-zero vector has length 1 |
| Onbs.UnitVectorKeepsOrthogonality | src/rt/vec3.rs:96-98 | normalising keeps a vector orthogonal to n |
| Onbs.ReferenceAxisNotParallel | src/rt/onb.rs:12-17 | the reference axis is never parallel to a unit `w`, so `cross(w, a)` is non-zero |
| Onbs.LocalAxes | src/rt/onb.rs:22-24 | `local` maps the unit axes to u, v and w |
| Onbs.LocalAdditive | src/rt/onb.rs:22-24 | `local` is additive |
| Onbs.LocalHomogeneous | src/rt/onb.rs:22-24 | `local` commutes with scaling |
| Onbs.LocalDot | src/rt/onb.rs:22-24 | the dot of `local(a)` with n is the a-weighted sum of the axes' dots with n |
| Onbs.LocalAlongW | src/rt/onb.rs:22-24 | for an orthonormal basis, the w component of `local(a)` is a.z |
| Pdfs.NewCosine | src/rt/pdfs/cosine_pdf.rs:10-14 | the basis is built from w: its `w` is the unit vector of the given vector |
| Pdfs.CosineValue | src/rt/pdfs/cosine_pdf.rs:18-25 | the value is 0 iff the cosine to w is <= 0, and cosine/pi otherwise, so it is always >= 0 |
| Pdfs.CosineValueScaleInvariant | src/rt/pdfs/cosine_pdf.rs:19 | scaling the direction by a positive factor does not change the value |
| Pdfs.UnitVectorScaleInvariant | src/rt/pdfs/cosine_pdf.rs:19 | normalising ignores a positive scale factor |
| Pdfs.CosineGenerateAbove | src/rt/pdfs/cosine_pdf.rs:27-29 | a generated direction never points below the surface: its dot with w is >= 0 |
| Pdfs.MixtureValue | src/rt/pdfs/mixture_pdf.rs:17-19 | the mixture's value is symmetric in p0 and p1, equals x when both equal x, and lies between the two values |
| Pdfs.MixtureGenerate | src/rt/pdfs/mixture_pdf.rs:21-27 | a draw < 0.5 takes p0's sample and any other draw takes p1's |
| Pdfs.HittablePdfAimsAtLight | src/rt/pdfs/hittable_pdf.rs:17-23 | the value is 0 for a direction that misses the light, and a generated direction from `o` lands on the light |
| Pdfs.ValueNonNegative | src/rt/pdfs/mixture_pdf.rs:17-19 | a density whose components are non-negative has a non-negative value |
| Sampling.RandomBetween | src/rt/mod.rs:93-95 | the result lies in [min, max) |
| Sampling.RandomVec3Between | src/rt/mod.rs:101-107 | each component lies in [min, max) |
| Sampling.RandomVec2Between | src/rt/mod.rs:109-115 | x and y lie in [min, max) and z is 0 |
| Sampling.FirstInSphere | src/rt/mod.rs:117-125 | the first accepted candidate has length^2 < 1, and there is none iff every candidate was rejected |
| Sampling.InUnitSphere | src/rt/mod.rs:117-125 | for draws that contain an accepted candidate, the point is strictly inside the unit sphere |
| Sampling.RandomInUnitSphere | src/rt/mod.rs:117-125 | the rejection loop returns the first accepted candidate |
| Sampling.FirstInDisk | src/rt/mod.rs:127-135 | the first accepted disk candidate has length^2 < 1 and z = 0 |
| Sampling.InUnitDisk | src/rt/mod.rs:127-135 | for draws that contain an accepted candidate, the point is inside the unit disk with z = 0 |
| Sampling.RandomInUnitDisk | src/rt/mod.rs:127-135 | the rejection loop returns the first accepted candidate |
| Sampling.DiskFirstAccepted | src/rt/mod.rs:127-135 | the first candidate that passes the test is the one returned |
| Sampling.SphereFirstAccepted | src/rt/mod.rs:117-125 | the first candidate that passes the test is the one returned |
| Sampling.RandomUnitVector | src/rt/mod.rs:137-139 | the unit vector of the unit-sphere draw |
| Sampling.RandomInHemisphere | src/rt/mod.rs:141-148 | the unit-sphere draw or its negation, whichever has a dot >= 0 with the normal |
| Sampling.RandomCosineDirection | src/rt/mod.rs:150-160 | `z == sqrt(1 - r2)` |
| Sampling.CosineDirectionUp | src/rt/mod.rs:150-160 | the cosine direction points up: z >= 0 |
| Sampling.ToSphereInCone | src/rt/mod.rs:162-172 | for a light sphere seen from at least its radius away, the sampled direction stays inside the sphere's cone: `sqrt(1 - radius^2 / distance^2) <= z <= 1` |
| Floats.DegreesToRadians | src/rt/mod.rs:82-84 | 180 degrees is pi radians |
| Floats.AsUsize | src/rt/camera.rs:68 | `as usize` truncates a non-negative value towards zero and saturates negatives at 0 |
| Floats.AsI32 | src/rt/noise/perlin.rs:61-63 | `as i32` on a float truncates toward zero and saturates at `i32::MIN` and `i32::MAX` |
| Floats.AsU8 | src/main.rs:787-789 | `as u8` truncates and saturates at 0 and 255 |
| Materials.ScatteringPdf | src/rt/materials/mod.rs:22-24 | the default `scattering_pdf` is 0 |
| Lambertians.FromTexture | src/rt/materials/lambertian.rs:21-23 | stores the albedo texture |
| Lambertians.FromColor | src/rt/materials/lambertian.rs:17-19 | wraps the colour in a solid texture |
| Lambertians.Direction | src/rt/materials/lambertian.rs:28-33 | normal + random unit vector, replaced by the normal when near zero, so a direction that is not near zero results whenever the normal is not |
| Lambertians.Scatter | src/rt/materials/lambertian.rs:27-39 | always scatters, with the albedo at (u, v, p) as attenuation and a ray from `rec.p` at the incoming time |
| Lambertians.SolidAlbedo | src/rt/materials/lambertian.rs:17-39 | a solid-colour Lambertian attenuates by exactly that colour |
| Metals.New | src/rt/materials/metal.rs:12-15 | a fuzz of at least 1 is stored as 1, and smaller values (negative ones included) are kept |
| Metals.Scatter | src/rt/materials/metal.rs:19-31 | scatters iff the perturbed reflection has a positive dot with the normal; it then keeps the albedo and the ray starts at `rec.p` at the incoming time |
| Metals.PolishedMirror | src/rt/materials/metal.rs:20-30 | with fuzz 0 the direction is the exact mirror reflection, and it scatters iff `dot(unit(dir), normal) < 0` |
| Dielectrics.New | src/rt/materials/dielectric.rs:9-11 | stores the refraction index |
| Dielectrics.RefractionRatio | src/rt/materials/dielectric.rs:16-20 | 1/ior on a front face and ior on a back face |
| Dielectrics.CosTheta | src/rt/materials/dielectric.rs:23 | `cos_theta <= 1`, because of the `min` |
| Dielectrics.R0 | src/rt/materials/dielectric.rs:43-44 | `r0` lies in [0, 1] for a non-negative index |
| Dielectrics.Pow5 | src/rt/materials/dielectric.rs:45 | the fifth power stays in [0, 1] on [0, 1] |
| Dielectrics.Scatter | src/rt/materials/dielectric.rs:15-38 | always a specular record with white attenuation and a ray from `rec.p` at the incoming time; it reflects when it cannot refract or the reflectance exceeds the draw, and refracts otherwise |
| Dielectrics.TotalInternalReflection | src/rt/materials/dielectric.rs:26-30 | when it cannot refract, the result is the mirror reflection, whatever the draw |
| Dielectrics.RefractedCrossesSurface | src/rt/materials/dielectric.rs:28-33 | a refracted ray goes through the surface |
| Dielectrics.ReflectedStaysOutside | src/rt/materials/dielectric.rs:28-33 | a reflected ray stays on the incoming side |
| Dielectrics.ReflectanceHeadOn | src/rt/materials/dielectric.rs:41-46 | head-on (cosine 1) the reflectance is r0 = ((1 - r)/(1 + r))^2 |
| Dielectrics.ReflectanceGrazing | src/rt/materials/dielectric.rs:41-46 | `reflectance(0, r) == 1` |
| Dielectrics.SchlickEnds | src/rt/materials/dielectric.rs:45 | Schlick's formula is r0 at cosine 1 and 1 at cosine 0 |
| Dielectrics.ReflectanceBounds | src/rt/materials/dielectric.rs:41-46 | the reflectance lies in [r0, 1] for cosine in [0, 1] |
| DiffuseLights.FromTexture | src/rt/materials/diffuse_light.rs:22-24 | stores the emit texture |
| DiffuseLights.FromColor | src/rt/materials/diffuse_light.rs:18-20 | wraps the colour in a solid texture |
| DiffuseLights.Scatter | src/rt/materials/diffuse_light.rs:28-30 | never scatters |
| DiffuseLights.ConstantEmission | src/rt/materials/diffuse_light.rs:18-34 | a light built from a colour emits exactly that colour everywhere |
| Isotropics.FromTexture | src/rt/materials/isotropic.rs:22-24 | stores the albedo texture |
| Isotropics.FromColor | src/rt/materials/isotropic.rs:18-20 | wraps the colour in a solid texture |
| Isotropics.Scatter | src/rt/materials/isotropic.rs:28-33 | always scatters, with the albedo at (u, v, p) as attenuation and a ray from `rec.p` at the incoming time in a direction inside the unit sphere |
| Cameras.New | src/rt/camera.rs:25-72 | the lens radius is aperture/2; the height is floor(width / aspect_ratio); w and u are the normalised view and side axes, and v is orthogonal to both; the viewport centre lies `focus_dist` along -w from the origin; width, samples and depth are stored |
| Cameras.GetRay | src/rt/camera.rs:74-83 | the ray time lies in [time0, time1) |
| Cameras.PinholeRays | src/rt/camera.rs:75-80 | with a zero lens radius, every ray starts at the origin and aims at the viewport point (s, t) |
| Cameras.PinholeCentre | src/rt/camera.rs:51-80 | with aperture 0, `get_ray(0.5, 0.5)` has direction `-focus_dist * w` |
| Integrator.AsSpecular | src/rt/mod.rs:40-45 | a tuple-returning material's result, read as a specular record |
| Integrator.Scatter | src/rt/materials/mod.rs:18-20 | lights never scatter; only lights and metals may fail to; every scattered ray starts at the hit at the incoming time |
| Integrator.Emitted | src/rt/materials/mod.rs:26-28 | every material other than a light emits black |
| Integrator.NoBouncesLeft | src/rt/mod.rs:32-34 | `ray_color` is black at depth 0 |
| Integrator.MissSeesBackground | src/rt/mod.rs:36-37 | a ray that misses the world on [0.001, +inf) sees the background |
| Integrator.LightSeesEmission | src/rt/mod.rs:39-41 | a ray that hits a light sees only its emission |
| Integrator.BounceAttenuates | src/rt/mod.rs:40-45 | any other hit gives attenuation times `ray_color` one bounce further, with no emission added, or black when a metal absorbs the ray |
| Integrator.LastBounceOnlyEmission | src/rt/mod.rs:32-45 | at depth 1 a hit contributes only its emission |
| Integrator.SampleColors | src/rt/mod.rs:72-77 | one `ray_color` per sample |
| Integrator.RenderPixel | src/rt/mod.rs:63-79 | the loop returns the sum of exactly `samples_per_pixel` `ray_color` values |
| Integrator.UniformSamples | src/rt/mod.rs:71-78 | n equal samples sum to n times the sample |
| Output.Average | src/main.rs:785 | `avg * samples == c` for a positive sample count |
| Output.ChannelBand | src/main.rs:785-789 | the gamma-corrected value is in [0, 1] and the byte is its truncation after scaling by 255.999 |
| Output.WriteColor | src/main.rs:783-791 | writes the three quantised channels, and only the target pixel changes |
| Output.FlipRow | src/main.rs:776-779 | the rendered row `height - 1 - y` lies in [0, height - 1] |
| Output.FlipRowInvolution | src/main.rs:776-779 | flipping twice gives the row back |
| Output.FlipRowInjective | src/main.rs:776-779 | distinct rows flip to distinct rows |
| Output.IteratePixel | src/main.rs:769-781 | the pixel receives the quantised sum of the samples for the flipped row |
| Output.DarkChannel | src/main.rs:785-789 | a channel of 0 maps to 0 |
| Output.FullChannel | src/main.rs:785-789 | a channel averaging 1 maps to 255 |
| Output.AverageMonotone | src/main.rs:785 | averaging is monotone |
| Output.ChannelMonotone | src/main.rs:785-789 | quantisation is monotone in the channel sum |

## Left out

- Scene builders and `main` (src/main.rs:29-767): scene configuration, parallel iteration over pixels, a progress bar and PNG saving are I/O and concurrency. Only `iterate_pixel` and `write_color` are modelled.
- `Textures.Column`, `Textures.Row`: these require a width and a height of at least 1. For an empty image the source's `width - 1` underflows `usize`, which is not modelled.
- `ImageTexture::from_file`: image decoding is a foreign library call. The model starts from an in-memory buffer.
- IEEE-754 rounding, NaN and the infinities produced by dividing by a zero direction component are not modelled. Real arithmetic is exact, and a division by zero has an unspecified value (`FDiv`).
- Transcendental values are uninterpreted, so no property depends on their actual values. This covers `get_sphere_uv`, `perlin_interp` (an `interp` parameter), the cosine and to-sphere directions, the square root in `refract`, the camera's `tan`, the checker's sines and the volume's `ln`.
- The division by `pdf_value` in `ray_color` (src/rt/mod.rs:55) is unguarded and uses `FDiv`. No material produces the diffuse record that reaches it, so that branch is modelled but never taken.
- Probabilistic claims (unbiasedness, the exponential free-flight distribution, convergence) are statistical, not functional.
- Rust's `sort_by` internals: the comparator answers `Greater` both ways for equal keys, so it is not a consistent total `Ordering`, although the `is_less` that `sort_by` derives from it is the strict order on keys. The build takes any sort that returns a permutation non-decreasing in the box minimum (`SortsByBox`). `InsertionSortSorts` shows one exists.
- `BvhNodes.FromSlice`, `BvhNodes.FromList`: these require a box for every object when the slice has two or more. Without one, `box_compare` (src/rt/shapes/bvh_node.rs:70-78) panics in its `expect`, and that panic is not modelled.
- `Integrator.RenderPixel`: this requires a camera width and height of at least 1. For 0, `camera.width - 1` and `camera.height - 1` (src/rt/mod.rs:73-74) underflow `usize` and panic in debug builds; that is not modelled.
- The random split axis of each BVH node (`random_i32_between(0, 2)`) is a parameter `axisOf` that gives the axis of every node from its path from the root.
- Termination of the rejection loops: the caller supplies the draw sequence, and the total variants (`InUnitSphere`, `InUnitDisk`) require one accepted candidate.
- Trait objects, `Arc` and lifetimes: the model uses datatypes with one variant per implementation and `Shape` records of functions.
- The materials disagree with the `Material` trait. Four of them return `Option<(Color, Ray)>` where the trait expects `Option<ScatterRecord>`, and `ray_color` reads such a pair as a specular record (`Integrator.AsSpecular`).
- `DiffuseLight::emitted` takes three arguments where the trait takes five; the model uses the three.
- The `Hittable` trait declares no `pdf_value`/`random`, so the light of `ray_color` and of the hittable density is an `XzRect`, the only shape that implements them.
- `RotateYs.Hit`, `Vectors.Set`: the source's in-place `set` on a local `Vec3` copy is a functional update. A `Vec3` is a value type, so nothing else can observe the change.
- `HitRecords.SetFaceNormal`: `&mut self` on an owned record is a functional update returning the new record.
- `ConstantVolumes.Hit`: the successive reassignments of `rec1.t`/`rec2.t` are one expression. The debug printing and the `DEBUGGING` constant are left out.
- `Output.IteratePixel`: `camera.height as u32` is exact for the heights the camera computes (a `nat`). The `u32` wrap-around of `height - 1 - y` is excluded by `y < height`.
- `Spheres.Hit`, `MovingSpheres.Hit`: their own contracts state only the interval. The nearest-root and on-sphere properties are the lemmas `HitIsNearest`, `HitOnSphere` and `HitIsSphereAtRayTime`, which need `SqrtLaw` and a non-zero direction.
- `BvhNodes.Hit`: its own contract states only the pruning. The interval and ordering facts are `HitInRange`. The nearest-hit property and the agreement with a list are `HitIsNearest` and `HitMatchesList`, and they are proved only for a non-empty query interval (`t_min < t_max`). They assume `NeverPrunesHit`: no node's slab test rejects a non-empty interval on which a leaf below it answers. One-point intervals are excluded from that hypothesis because the slab test rejects every one of them. The search reaches such an interval only for the right child after a left hit exactly at `t_min`, and `TiedSearch` shows that nothing there can beat that hit. The model does not derive the hypothesis from box containment in general, because the per-axis test is proved conservative only for points strictly inside the box (`Boxes.SlabHitAtInterior`) and for rays not parallel to an axis plane, while a leaf may be hit on its box's boundary. `RectLeafNeverPruned` derives it for a rectangle leaf crossed away from its edges, and `DemoRayCrossesRect` gives a concrete ray for which it holds and the tree hits.
- `Noise.NoiseMethod`, `Noise.Lattice`: a cell saturated at `i32::MAX` makes `i + 1` overflow `i32`. A debug build panics there, and that panic is not modelled. The model takes the wrapped value, which has the same low byte as the release build's wrap (`LatticeAtOverflow`). NaN coordinates (`as i32` gives 0) are not modelled either, because reals have no NaN.
- `Cameras.GetRay`: the lens offset uses a supplied unit-disk sample, and only the pinhole case (aperture 0) has its ray pinned down exactly.
- `XzRects.PdfValue`, `Dielectrics.Reflectance`, `Pdfs.Value`, `Pdfs.Generate`, `Textures.Value`, `Integrator.RayColor`: these functions carry no contract of their own. Their properties are the lemmas in the table above.
