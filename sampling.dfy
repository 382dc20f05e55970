/** The random helpers of src/rt/mod.rs. Every `random_f64()` is a draw in [0, 1) that
    the caller supplies; the rejection loops take the whole list of candidate draws and
    report `None` when every candidate in it is rejected (the program would keep drawing). */
module Sampling {
  import opened Floats
  import opened Vectors

  /** One value of `random_f64()`. */
  type Unit = x: real | 0.0 <= x < 1.0

  /** The three draws behind one `random_vec3_between` candidate. */
  datatype Draw3 = Draw3(a: Unit, b: Unit, c: Unit)

  /** `random_f64_between(min, max) = min + (max - min) * random_f64()`. */
  function RandomBetween(min: real, max: real, d: Unit): (r: real)
    ensures min < max ==> min <= r < max
    ensures min == max ==> r == min
  {
    var width := max - min;
    var r := min + width * d;
    ScaledDraw(min, width, d, r);
    r
  }

  /** `min + width * d` for a draw `d` in [0, 1) lies in [min, min + width). */
  lemma ScaledDraw(min: real, width: real, d: Unit, r: real)
    requires r == min + width * d
    ensures 0.0 < width ==> min <= r < min + width
    ensures width == 0.0 ==> r == min
  {
    if 0.0 < width {
      MulLtMono(d, 1.0, width);
      MulLeMono(0.0, d, width);
      assert d * width == width * d;
    } else if width == 0.0 {
      assert width * d == 0.0 * d == 0.0;
    }
  }

  /** `random_vec3_between`: each component drawn in [min, max). */
  function RandomVec3Between(min: real, max: real, d: Draw3): (p: Vec3)
    ensures min < max ==> min <= p.x < max && min <= p.y < max && min <= p.z < max
  {
    Vec3(RandomBetween(min, max, d.a), RandomBetween(min, max, d.b), RandomBetween(min, max, d.c))
  }

  /** `random_vec2_between`: x and y drawn in [min, max), z is 0. */
  function RandomVec2Between(min: real, max: real, d: Draw3): (p: Vec3)
    ensures p.z == 0.0
    ensures min < max ==> min <= p.x < max && min <= p.y < max
  {
    Vec3(RandomBetween(min, max, d.a), RandomBetween(min, max, d.b), 0.0)
  }

  /** The first candidate of the unit-sphere rejection loop that is accepted, if any. */
  function FirstInSphere(draws: seq<Draw3>): (p: Option<Vec3>)
    ensures p.Some? ==> LengthSquared(p.value) < 1.0
    ensures p.None? <==> forall i | 0 <= i < |draws| :: LengthSquared(RandomVec3Between(-1.0, 1.0, draws[i])) >= 1.0
  {
    if |draws| == 0 then None
    else
      var p := RandomVec3Between(-1.0, 1.0, draws[0]);
      if LengthSquared(p) >= 1.0 then
        var rest := FirstInSphere(draws[1..]);
        assert forall i | 1 <= i < |draws| :: draws[i] == draws[1..][i - 1];
        rest
      else Some(p)
  }

  /** A list of unit-sphere candidates that contains an accepted one: the program's
      rejection loop always ends on such a list. */
  type SphereDraws = s: seq<Draw3> | FirstInSphere(s).Some? witness [Draw3(0.5, 0.5, 0.5)]

  /** The sample `random_in_unit_sphere` returns on the list `s`. */
  function InUnitSphere(s: SphereDraws): (p: Vec3)
    ensures LengthSquared(p) < 1.0 && FirstInSphere(s) == Some(p)
  {
    FirstInSphere(s).value
  }

  /** `random_in_unit_sphere`: draws candidates in the cube [-1, 1)^3 until one lies
      strictly inside the unit sphere. */
  method RandomInUnitSphere(draws: seq<Draw3>) returns (p: Option<Vec3>)
    ensures p == FirstInSphere(draws)
  {
    var i := 0;
    while i < |draws|
      invariant 0 <= i <= |draws|
      invariant FirstInSphere(draws) == FirstInSphere(draws[i..])
    {
      var candidate := RandomVec3Between(-1.0, 1.0, draws[i]);
      if LengthSquared(candidate) >= 1.0 {
        assert draws[i..][1..] == draws[i + 1..];
        i := i + 1;
        continue;
      }
      return Some(candidate);
    }
    return None;
  }

  /** The first candidate of the unit-disk rejection loop that is accepted, if any
      (only the first two draws of each candidate are used). */
  function FirstInDisk(draws: seq<Draw3>): (p: Option<Vec3>)
    ensures p.Some? ==> LengthSquared(p.value) < 1.0 && p.value.z == 0.0
  {
    if |draws| == 0 then None
    else
      var p := RandomVec2Between(-1.0, 1.0, draws[0]);
      if LengthSquared(p) >= 1.0 then FirstInDisk(draws[1..]) else Some(p)
  }

  /** A list of unit-disk candidates that contains an accepted one. */
  type DiskDraws = s: seq<Draw3> | FirstInDisk(s).Some? witness [Draw3(0.5, 0.5, 0.5)]

  /** The sample `random_in_unit_disk` returns on the list `s`. */
  function InUnitDisk(s: DiskDraws): (p: Vec3)
    ensures LengthSquared(p) < 1.0 && p.z == 0.0 && FirstInDisk(s) == Some(p)
  {
    FirstInDisk(s).value
  }

  /** `random_in_unit_disk`: the same loop in the plane z = 0. */
  method RandomInUnitDisk(draws: seq<Draw3>) returns (p: Option<Vec3>)
    ensures p == FirstInDisk(draws)
  {
    var i := 0;
    while i < |draws|
      invariant 0 <= i <= |draws|
      invariant FirstInDisk(draws) == FirstInDisk(draws[i..])
    {
      var candidate := RandomVec2Between(-1.0, 1.0, draws[i]);
      if LengthSquared(candidate) >= 1.0 {
        assert draws[i..][1..] == draws[i + 1..];
        i := i + 1;
        continue;
      }
      return Some(candidate);
    }
    return None;
  }

  /** `random_unit_vector`: the accepted unit-sphere draw, normalised. */
  function RandomUnitVector(f: FloatOps, draws: seq<Draw3>): (v: Option<Vec3>)
    ensures v.None? <==> FirstInSphere(draws).None?
    ensures v.Some? ==> v.value == UnitVector(f, FirstInSphere(draws).value)
  {
    match FirstInSphere(draws)
    case None => None
    case Some(p) => Some(UnitVector(f, p))
  }

  /** `random_in_hemisphere`: the unit-sphere draw, negated unless it points to the
      normal's side. */
  function RandomInHemisphere(normal: Vec3, draws: seq<Draw3>): (v: Option<Vec3>)
    ensures v.None? <==> FirstInSphere(draws).None?
    ensures v.Some? ==> 0.0 <= Dot(v.value, normal) && LengthSquared(v.value) < 1.0
    ensures v.Some? ==> v.value == FirstInSphere(draws).value || v.value == Neg(FirstInSphere(draws).value)
  {
    match FirstInSphere(draws)
    case None => None
    case Some(p) =>
      NegFlips(p, normal);
      Some(if Dot(p, normal) > 0.0 then p else Neg(p))
  }

  /** `random_cosine_direction`: a direction from two draws, z = sqrt(1 - r2). */
  function RandomCosineDirection(f: FloatOps, r1: Unit, r2: Unit): (d: Vec3)
    ensures d.z == f.sqrt(1.0 - r2)
  {
    var phi := 2.0 * PI * r1;
    Vec3(f.cos(phi) * f.sqrt(r2), f.sin(phi) * f.sqrt(r2), f.sqrt(1.0 - r2))
  }

  /** `random_to_sphere`: a direction towards a sphere of the given radius seen from the
      given squared distance. */
  function RandomToSphere(f: FloatOps, radius: real, distanceSquared: real, r1: Unit, r2: Unit): (d: Vec3)
    ensures d.z == 1.0 + r2 * (f.sqrt(1.0 - FDiv(f, radius * radius, distanceSquared)) - 1.0)
  {
    var z := 1.0 + r2 * (f.sqrt(1.0 - FDiv(f, radius * radius, distanceSquared)) - 1.0);
    var phi := 2.0 * PI * r1;
    Vec3(f.cos(phi) * f.sqrt(1.0 - z * z), f.sin(phi) * f.sqrt(1.0 - z * z), z)
  }

  // ---------------------------------------------------------------- properties

  /** A direction towards a sphere seen from outside (or from its surface) stays inside the
      sphere's cone: its z lies between the cosine `sqrt(1 - radius^2 / distance^2)` of the
      cone's half-angle and 1. */
  lemma ToSphereInCone(f: FloatOps, radius: real, distanceSquared: real, r1: Unit, r2: Unit)
    requires SqrtLaw(f) && 0.0 < distanceSquared && radius * radius <= distanceSquared
    ensures var z := RandomToSphere(f, radius, distanceSquared, r1, r2).z;
            f.sqrt(1.0 - radius * radius / distanceSquared) <= z <= 1.0
  {
    var q := 1.0 - radius * radius / distanceSquared;
    assert FDiv(f, radius * radius, distanceSquared) == radius * radius / distanceSquared;
    assert 0.0 <= q <= 1.0 by {
      RatioAtMostOne(radius * radius, distanceSquared);
    }
    SqrtAtMostOne(f, q);
    BetweenOneAnd(f.sqrt(q), r2);
  }

  /** Moving from 1 towards `s` by a fraction `w` of the way stays between `s` and 1. */
  lemma BetweenOneAnd(s: real, w: real)
    requires 0.0 <= s <= 1.0 && 0.0 <= w <= 1.0
    ensures s <= 1.0 + w * (s - 1.0) <= 1.0
  {
    MulLeMono(s, 1.0, w);
    assert s * w <= w;
    MulLeMono(w, 1.0, 1.0 - s);
    assert w * (1.0 - s) == w - s * w;
    assert w * (s - 1.0) == s * w - w;
  }

  lemma RatioAtMostOne(a: real, b: real)
    requires 0.0 < b && a <= b
    ensures a / b <= 1.0
  {
    MulLeMono(a / b, 1.0, b);
  }

  /** The square root of a value in [0, 1] lies in [0, 1]. */
  lemma SqrtAtMostOne(f: FloatOps, q: real)
    requires SqrtLaw(f) && 0.0 <= q <= 1.0
    ensures 0.0 <= f.sqrt(q) <= 1.0
  {
    var s := f.sqrt(q);
    if s > 1.0 {
      MulLtMono(1.0, s, s);
    }
  }

  /** The cosine direction points into the upper half space (z >= 0). */
  lemma CosineDirectionUp(f: FloatOps, r1: Unit, r2: Unit)
    requires SqrtLaw(f)
    ensures 0.0 <= RandomCosineDirection(f, r1, r2).z
  {
  }

  /** Every accepted unit-disk draw lies in the unit disk in the plane z = 0, and the first
      candidate inside the disk is the one returned. */
  lemma {:induction false} DiskFirstAccepted(draws: seq<Draw3>, i: int)
    requires 0 <= i < |draws| && LengthSquared(RandomVec2Between(-1.0, 1.0, draws[i])) < 1.0
    requires forall j | 0 <= j < i :: LengthSquared(RandomVec2Between(-1.0, 1.0, draws[j])) >= 1.0
    ensures FirstInDisk(draws) == Some(RandomVec2Between(-1.0, 1.0, draws[i]))
    decreases i
  {
    if i > 0 {
      assert forall j | 0 <= j < i - 1 :: draws[1..][j] == draws[j + 1];
      DiskFirstAccepted(draws[1..], i - 1);
    }
  }

  /** The sphere sample is the first accepted candidate: when every earlier candidate
      is rejected and candidate `i` is accepted, `i` is the one returned. */
  lemma {:induction false} SphereFirstAccepted(draws: seq<Draw3>, i: int)
    requires 0 <= i < |draws| && LengthSquared(RandomVec3Between(-1.0, 1.0, draws[i])) < 1.0
    requires forall j | 0 <= j < i :: LengthSquared(RandomVec3Between(-1.0, 1.0, draws[j])) >= 1.0
    ensures FirstInSphere(draws) == Some(RandomVec3Between(-1.0, 1.0, draws[i]))
    decreases i
  {
    if i > 0 {
      assert forall j | 0 <= j < i - 1 :: draws[1..][j] == draws[j + 1];
      SphereFirstAccepted(draws[1..], i - 1);
    }
  }
}
