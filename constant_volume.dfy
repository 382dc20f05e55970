/** `ConstantVolume` (src/rt/shapes/constant_volume.rs): a participating medium of
    constant density inside a boundary object. A ray that enters and leaves the boundary
    may scatter at a random distance inside it; the distance is drawn as
    `-(1 / density) * ln(draw)`. */
module ConstantVolumes {
  import opened Floats
  import opened Vectors
  import opened Rays
  import opened Boxes
  import opened Textures
  import opened Materials
  import opened HitRecords
  import opened Hittables

  datatype ConstantVolume = ConstantVolume(boundary: Shape, phaseFunction: Material, negInvDensity: real)

  /** `from_texture(b, d, a)`: the boundary, `-1 / d` and an isotropic phase function
      with albedo `a`. */
  function FromTexture(f: FloatOps, b: Shape, d: real, a: Texture): (cv: ConstantVolume)
    ensures cv.boundary == b && cv.phaseFunction == Isotropic(a)
    ensures d != 0.0 ==> cv.negInvDensity * d == -1.0
  {
    ConstantVolume(b, Isotropic(a), FDiv(f, -1.0, d))
  }

  /** `from_color(b, d, a)`: `from_texture` with a solid colour. */
  function FromColor(f: FloatOps, b: Shape, d: real, a: Vec3): (cv: ConstantVolume)
    ensures cv == FromTexture(f, b, d, SolidColor(a))
    ensures cv.phaseFunction.Isotropic? && cv.phaseFunction.phase.SolidColor?
  {
    FromTexture(f, b, d, NewSolidColor(a))
  }

  /** The part of the ray inside the boundary that `hit` samples: entry and exit
      parameters after clamping to the query interval, with the entry raised to 0. */
  datatype Segment = Segment(entry: real, exit: real)

  /** The boundary is hit over the whole line and then again from just past the first
      hit (`None` unless both hits exist); the entry is raised to `t_min`, the exit lowered
      to `t_max`, and `None` follows when they do not leave a non-empty interval. A
      still-negative entry is then raised to 0. */
  function InsideSegment(cv: ConstantVolume, r: Ray, tMin: Ext, tMax: Ext): (seg: Option<Segment>)
    ensures seg.Some? ==> Le(tMin, Fin(seg.value.entry)) && Le(Fin(seg.value.exit), tMax)
    ensures seg.Some? ==> 0.0 <= seg.value.entry
  {
    match cv.boundary.hit(r, NegInf, PosInf)
    case None => None
    case Some(rec1) =>
      match cv.boundary.hit(r, Fin(rec1.t + 0.0001), PosInf)
      case None => None
      case Some(rec2) =>
        var entry := RaiseTo(rec1.t, tMin);
        var exit := LowerTo(rec2.t, tMax);
        if !Lt(entry, exit) then None
        else
          // entry >= rec1.t and exit <= rec2.t, so entry < exit rules out both infinities
          var t1 := if entry.Fin? then entry.v else 0.0;
          var t2 := if exit.Fin? then exit.v else 0.0;
          Some(Segment(if t1 < 0.0 then 0.0 else t1, t2))
  }

  /** `hit(r, t_min, t_max)` with the scattering draw `draw`: `None` when the sampled
      distance `neg_inv_density * ln(draw)` exceeds the length of the segment inside the
      boundary, otherwise a record at that distance past the entry, with an arbitrary
      normal (1, 0, 0), `front_face` set, u = v = 0 and the phase-function material. */
  function Hit(f: FloatOps, cv: ConstantVolume, r: Ray, tMin: Ext, tMax: Ext, draw: real): (res: Option<HitRecord>)
    ensures res.Some? ==>
              && res.value.normal == UNIT_X && res.value.frontFace && res.value.u == 0.0 && res.value.v == 0.0
              && res.value.material == cv.phaseFunction && res.value.p == At(r, res.value.t)
    ensures InsideSegment(cv, r, tMin, tMax).None? ==> res.None?
  {
    match InsideSegment(cv, r, tMin, tMax)
    case None => None
    case Some(seg) =>
      var rayLength := Length(f, r.direction);
      var distanceInsideBoundary := (seg.exit - seg.entry) * rayLength;
      var hitDistance := HitDistance(f, cv, draw);
      if hitDistance > distanceInsideBoundary then None
      else
        var t := seg.entry + FDiv(f, hitDistance, rayLength);
        Some(HitRecord(At(r, t), Vec3(1.0, 0.0, 0.0), t, 0.0, 0.0, true, cv.phaseFunction))
  }

  /** `neg_inv_density * ln(draw)`: with a positive density and a draw in (0, 1) it is
      never negative. */
  function HitDistance(f: FloatOps, cv: ConstantVolume, draw: real): (d: real)
    ensures LnLaw(f) && cv.negInvDensity <= 0.0 && 0.0 < draw <= 1.0 ==> 0.0 <= d
  {
    NonPositiveProduct(f, cv.negInvDensity, draw);
    cv.negInvDensity * f.ln(draw)
  }

  lemma NonPositiveProduct(f: FloatOps, k: real, draw: real)
    ensures LnLaw(f) && k <= 0.0 && 0.0 < draw <= 1.0 ==> 0.0 <= k * f.ln(draw)
  {
    if LnLaw(f) && k <= 0.0 && 0.0 < draw <= 1.0 {
      MulLeMono(k, 0.0, -f.ln(draw));
    }
  }

  /** `bounding_box`: the boundary's box. */
  function BoundingBox(cv: ConstantVolume, time0: real, time1: real): (b: Option<Aabb>)
    ensures b == cv.boundary.boundingBox(time0, time1)
  {
    cv.boundary.boundingBox(time0, time1)
  }

  // ---------------------------------------------------------------- properties

  /** The scattering point lies in the clamped segment inside the boundary, hence in
      `[t_min, t_max]` and at a non-negative parameter, whenever the sampled distance is
      non-negative and the ray has a non-zero direction. */
  lemma {:induction false} HitInSegment(f: FloatOps, cv: ConstantVolume, r: Ray, tMin: Ext, tMax: Ext, draw: real)
    requires SqrtLaw(f) && 0.0 < LengthSquared(r.direction)
    requires 0.0 <= HitDistance(f, cv, draw)
    requires Hit(f, cv, r, tMin, tMax, draw).Some?
    ensures var seg := InsideSegment(cv, r, tMin, tMax).value;
            var t := Hit(f, cv, r, tMin, tMax, draw).value.t;
            seg.entry <= t <= seg.exit && InRange(t, tMin, tMax) && 0.0 <= t
  {
    var seg := InsideSegment(cv, r, tMin, tMax).value;
    var entry, exit := seg.entry, seg.exit;
    var len := Length(f, r.direction);
    SqrtPositive(f, LengthSquared(r.direction));
    var hd := HitDistance(f, cv, draw);
    assert hd <= (exit - entry) * len;
    var step := FDiv(f, hd, len);
    var t := Hit(f, cv, r, tMin, tMax, draw).value.t;
    assert t == entry + step;
    StepWithin(hd, len, entry, exit, step);
    assert Le(Fin(entry), Fin(t));
    LeTransitive(tMin, Fin(entry), Fin(t));
    LeTransitive(Fin(t), Fin(exit), tMax);
  }

  /** `0 <= hd <= (exit - entry) * len` with `len > 0` gives `0 <= hd / len <= exit - entry`. */
  lemma StepWithin(hd: real, len: real, entry: real, exit: real, step: real)
    requires 0.0 < len && 0.0 <= hd <= (exit - entry) * len && step * len == hd
    ensures 0.0 <= step && entry + step <= exit
  {
    var width := exit - entry;
    assert hd <= width * len;
    if step < 0.0 {
      MulLtMono(step, 0.0, len);
    }
    if width < step {
      MulLtMono(width, step, len);
    }
  }

  /** The boundary must be hit twice: a boundary it never hits, or hits only once along
      the line, gives no scattering. */
  lemma NeedsTwoBoundaryHits(f: FloatOps, cv: ConstantVolume, r: Ray, tMin: Ext, tMax: Ext, draw: real)
    requires || cv.boundary.hit(r, NegInf, PosInf).None?
             || cv.boundary.hit(r, Fin(cv.boundary.hit(r, NegInf, PosInf).value.t + 0.0001), PosInf).None?
    ensures Hit(f, cv, r, tMin, tMax, draw).None?
  {
  }

  /** When the clamped entry is not before the clamped exit there is no scattering. */
  lemma EmptyIntervalMisses(f: FloatOps, cv: ConstantVolume, r: Ray, tMin: Ext, tMax: Ext, draw: real)
    requires cv.boundary.hit(r, NegInf, PosInf).Some?
    requires var rec1 := cv.boundary.hit(r, NegInf, PosInf).value;
             var rec2 := cv.boundary.hit(r, Fin(rec1.t + 0.0001), PosInf);
             rec2.Some? && !Lt(RaiseTo(rec1.t, tMin), LowerTo(rec2.value.t, tMax))
    ensures Hit(f, cv, r, tMin, tMax, draw).None?
  {
  }
}
