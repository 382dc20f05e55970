/** `Sphere` (src/rt/shapes/sphere.rs): ray-sphere intersection by the half-b form of the
    quadratic formula, keeping the nearer root that lies in the query interval. The root
    selection is shared with `MovingSphere`, which runs the same code at its
    time-dependent centre. */
module Spheres {
  import opened Floats
  import opened Vectors
  import opened Rays
  import opened Boxes
  import opened Materials
  import opened HitRecords
  import opened Hittables

  datatype Sphere = Sphere(center: Vec3, radius: real, material: Material)

  /** Texture coordinates. */
  datatype Uv = Uv(u: real, v: real)

  /** `get_sphere_uv(p)`: polar angle from -y and azimuth around y, scaled to [0, 1]
      (the values of `acos` and `atan2` are left uninterpreted). */
  function GetSphereUv(f: FloatOps, p: Vec3): (uv: Uv)
    ensures uv.u * (2.0 * PI) == f.atan2(-p.z, p.x) + PI && uv.v * PI == f.acos(-p.y)
  {
    var theta := f.acos(-p.y);
    var phi := f.atan2(-p.z, p.x) + PI;
    Uv(phi / (2.0 * PI), theta / PI)
  }

  /** The quadratic `a t^2 + 2 half_b t + c` whose roots are the ray parameters at which
      the ray meets the sphere. */
  datatype Quadratic = Quadratic(a: real, halfB: real, c: real)

  function Coefficients(center: Vec3, radius: real, r: Ray): Quadratic {
    var oc := Sub(r.origin, center);
    Quadratic(LengthSquared(r.direction), Dot(oc, r.direction), LengthSquared(oc) - radius * radius)
  }

  function Discriminant(q: Quadratic): real {
    q.halfB * q.halfB - q.a * q.c
  }

  /** The value of the quadratic at `t`. */
  function Poly(q: Quadratic, t: real): real {
    q.a * t * t + 2.0 * q.halfB * t + q.c
  }

  predicate IsRoot(q: Quadratic, t: real) {
    Poly(q, t) == 0.0
  }

  /** The smaller and the larger candidate root, `(-half_b -/+ sqrt(d)) / a`. */
  function NearRoot(f: FloatOps, q: Quadratic): real {
    FDiv(f, -q.halfB - f.sqrt(Discriminant(q)), q.a)
  }

  function FarRoot(f: FloatOps, q: Quadratic): real {
    FDiv(f, -q.halfB + f.sqrt(Discriminant(q)), q.a)
  }

  /** `root < t_min || t_max < root`. */
  predicate OutOfRange(t: real, tMin: Ext, tMax: Ext) {
    Lt(Fin(t), tMin) || Lt(tMax, Fin(t))
  }

  /** The root selection of `hit`: none for a negative discriminant; otherwise the
      smaller root, or failing that the larger one, whichever first lies in range. */
  function NearestRoot(f: FloatOps, q: Quadratic, tMin: Ext, tMax: Ext): (root: Option<real>)
    ensures root.Some? ==> InRange(root.value, tMin, tMax)
  {
    if Discriminant(q) < 0.0 then None
    else
      var root := NearRoot(f, q);
      if OutOfRange(root, tMin, tMax) then
        var root := FarRoot(f, q);
        if OutOfRange(root, tMin, tMax) then None else Some(root)
      else Some(root)
  }

  /** The body of `hit` for a sphere with the given centre: the record at the selected
      root, with outward normal `(p - center) / radius`. */
  function HitAt(f: FloatOps, center: Vec3, radius: real, material: Material,
                 r: Ray, tMin: Ext, tMax: Ext): (res: Option<HitRecord>)
    ensures res.None? <==> NearestRoot(f, Coefficients(center, radius, r), tMin, tMax).None?
    ensures res.Some? ==>
              var root := NearestRoot(f, Coefficients(center, radius, r), tMin, tMax).value;
              res.value.t == root && res.value.p == At(r, root) && res.value.material == material &&
              FaceNormal(res.value.frontFace, res.value.normal) ==
                GetFaceNormal(r, OutwardNormal(f, center, radius, At(r, root)))
  {
    match NearestRoot(f, Coefficients(center, radius, r), tMin, tMax)
    case None => None
    case Some(root) =>
      var p := At(r, root);
      var outwardNormal := OutwardNormal(f, center, radius, p);
      var uv := GetSphereUv(f, outwardNormal);
      Some(New(p, root, uv.u, uv.v, r, outwardNormal, material))
  }

  /** `(p - center) / radius`. */
  function OutwardNormal(f: FloatOps, center: Vec3, radius: real, p: Vec3): (n: Vec3)
    ensures radius != 0.0 ==> Scale(n, radius) == Sub(p, center)
  {
    Div(f, Sub(p, center), radius)
  }

  /** `hit`. */
  function Hit(f: FloatOps, s: Sphere, r: Ray, tMin: Ext, tMax: Ext): (res: Option<HitRecord>)
    ensures res.Some? ==> InRange(res.value.t, tMin, tMax)
  {
    HitAt(f, s.center, s.radius, s.material, r, tMin, tMax)
  }

  /** The box `center -/+ (radius, radius, radius)`. */
  function RadiusBox(center: Vec3, radius: real): (b: Aabb)
    ensures 0.0 <= radius ==> forall p :: Inside(b, p) <==>
              Abs(p.x - center.x) <= radius && Abs(p.y - center.y) <= radius && Abs(p.z - center.z) <= radius
  {
    var rv := Vec3(radius, radius, radius);
    Aabb(Sub(center, rv), Add(center, rv))
  }

  /** `bounding_box`: the radius box around the centre, whatever the times. */
  function BoundingBox(s: Sphere, time0: real, time1: real): (b: Option<Aabb>)
    ensures b == Some(RadiusBox(s.center, s.radius))
  {
    Some(RadiusBox(s.center, s.radius))
  }

  function AsShape(f: FloatOps, s: Sphere): (sh: Shape)
    ensures forall r, lo, hi :: sh.hit(r, lo, hi) == Hit(f, s, r, lo, hi)
    ensures forall t0, t1 :: sh.boundingBox(t0, t1) == BoundingBox(s, t0, t1)
  {
    Shape((r, lo, hi) => Hit(f, s, r, lo, hi), (t0, t1) => BoundingBox(s, t0, t1))
  }

  // ---------------------------------------------------------------- quadratic algebra

  /** `a (a t^2 + 2 h t + c) = (a t + h + s)(a t + h - s)` when `s^2 = h^2 - a c`. */
  lemma Factor(a: real, h: real, c: real, s: real, t: real)
    requires s * s == h * h - a * c
    ensures a * (a * t * t + 2.0 * h * t + c) == (a * t + h + s) * (a * t + h - s)
  {
    var u := a * t;
    calc {
      (u + h + s) * (u + h - s);
      (u + h) * (u + h) - s * s;
      u * u + 2.0 * h * u + h * h - s * s;
      u * u + 2.0 * h * u + a * c;
    }
    assert u * u == a * (a * t * t);
    assert 2.0 * h * u == a * (2.0 * h * t);
  }

  /** With `a != 0` and `s = sqrt(h^2 - a c)`, the roots of `a t^2 + 2 h t + c` are exactly
      `(-h - s) / a` and `(-h + s) / a`. */
  lemma {:induction false} RootsAre(f: FloatOps, q: Quadratic, t: real)
    requires SqrtLaw(f) && q.a != 0.0 && 0.0 <= Discriminant(q)
    ensures IsRoot(q, t) <==> t == NearRoot(f, q) || t == FarRoot(f, q)
  {
    if IsRoot(q, t) {
      RootIsCandidate(f, q, t);
    } else {
      CandidateIsRoot(f, q, NearRoot(f, q));
      CandidateIsRoot(f, q, FarRoot(f, q));
    }
  }

  lemma {:induction false} RootIsCandidate(f: FloatOps, q: Quadratic, t: real)
    requires SqrtLaw(f) && q.a != 0.0 && 0.0 <= Discriminant(q)
    requires IsRoot(q, t)
    ensures t == NearRoot(f, q) || t == FarRoot(f, q)
  {
    var s := f.sqrt(Discriminant(q));
    RootIsCandidateReal(q.a, q.halfB, q.c, s, t, NearRoot(f, q), FarRoot(f, q));
  }

  lemma {:induction false} RootIsCandidateReal(a: real, h: real, c: real, s: real, t: real, near: real, far: real)
    requires a != 0.0 && s * s == h * h - a * c
    requires near * a == -h - s && far * a == -h + s
    requires a * t * t + 2.0 * h * t + c == 0.0
    ensures t == near || t == far
  {
    Factor(a, h, c, s, t);
    MulZero(a * t + h + s, a * t + h - s);
    if a * t + h + s == 0.0 {
      CancelFactor(a, t, near);
    } else {
      CancelFactor(a, t, far);
    }
  }

  lemma {:induction false} CandidateIsRoot(f: FloatOps, q: Quadratic, t: real)
    requires SqrtLaw(f) && q.a != 0.0 && 0.0 <= Discriminant(q)
    requires t == NearRoot(f, q) || t == FarRoot(f, q)
    ensures IsRoot(q, t)
  {
    var s := f.sqrt(Discriminant(q));
    Factor(q.a, q.halfB, q.c, s, t);
    assert q.a * t + q.halfB + s == 0.0 || q.a * t + q.halfB - s == 0.0;
    MulZero(q.a, q.a * t * t + 2.0 * q.halfB * t + q.c);
  }

  lemma CancelFactor(a: real, t: real, t': real)
    requires a != 0.0 && t * a == t' * a
    ensures t == t'
  {
    assert (t - t') * a == 0.0;
    MulZero(t - t', a);
  }

  /** A quadratic with a negative discriminant has no root. */
  lemma {:induction false} NoRoot(q: Quadratic, t: real)
    requires q.a != 0.0 && Discriminant(q) < 0.0
    ensures !IsRoot(q, t)
  {
    var u := q.a * t + q.halfB;
    assert q.a * (q.a * t * t + 2.0 * q.halfB * t + q.c) == u * u - Discriminant(q) by {
      assert u * u == q.a * (q.a * t * t) + 2.0 * q.halfB * (q.a * t) + q.halfB * q.halfB;
    }
    assert 0.0 <= u * u;
  }

  /** For a positive leading coefficient the near root is the smaller one. */
  lemma NearBeforeFar(f: FloatOps, q: Quadratic)
    requires SqrtLaw(f) && 0.0 < q.a && 0.0 <= Discriminant(q)
    ensures NearRoot(f, q) <= FarRoot(f, q)
  {
    var s := f.sqrt(Discriminant(q));
    assert NearRoot(f, q) * q.a <= FarRoot(f, q) * q.a;
    if FarRoot(f, q) < NearRoot(f, q) {
      MulLtMono(FarRoot(f, q), NearRoot(f, q), q.a);
    }
  }

  // ---------------------------------------------------------------- properties

  /** The selected root is the nearest root of the quadratic inside `[t_min, t_max]`, and
      there is none in range when the selection fails (for a ray with a non-zero
      direction). */
  lemma {:induction false} NearestRootIsNearest(f: FloatOps, q: Quadratic, tMin: Ext, tMax: Ext)
    requires SqrtLaw(f) && 0.0 < q.a
    ensures var root := NearestRoot(f, q, tMin, tMax);
            && (root.Some? ==>
                  && IsRoot(q, root.value) && InRange(root.value, tMin, tMax)
                  && forall t | IsRoot(q, t) && InRange(t, tMin, tMax) :: root.value <= t)
            && (root.None? ==> forall t | IsRoot(q, t) :: !InRange(t, tMin, tMax))
  {
    var root := NearestRoot(f, q, tMin, tMax);
    if Discriminant(q) < 0.0 {
      forall t | IsRoot(q, t) ensures false {
        NoRoot(q, t);
      }
    } else {
      var near, far := NearRoot(f, q), FarRoot(f, q);
      RootsAre(f, q, near);
      RootsAre(f, q, far);
      NearBeforeFar(f, q);
      forall t | IsRoot(q, t) ensures t == near || t == far {
        RootsAre(f, q, t);
      }
    }
  }

  /** `|o + t d - center|^2 = a t^2 + 2 half_b t + c + radius^2` for the sphere's
      coefficients: a root is a parameter at which the ray is on the sphere. */
  lemma {:induction false} DistanceAlongRay(center: Vec3, radius: real, r: Ray, t: real)
    ensures LengthSquared(Sub(At(r, t), center)) == Poly(Coefficients(center, radius, r), t) + radius * radius
  {
    var q := Coefficients(center, radius, r);
    var oc := Sub(r.origin, center);
    var d := r.direction;
    var w := Sub(At(r, t), center);
    assert w.x == oc.x + t * d.x && w.y == oc.y + t * d.y && w.z == oc.z + t * d.z;
    Expand(oc.x, oc.y, oc.z, d.x, d.y, d.z, t, w, q, radius * radius);
  }

  /** `|o + t d|^2 = |d|^2 t^2 + 2 (o . d) t + |o|^2`, component by component. */
  lemma {:induction false} Expand(ox: real, oy: real, oz: real, dx: real, dy: real, dz: real, t: real,
                                  w: Vec3, q: Quadratic, k: real)
    requires w.x == ox + t * dx && w.y == oy + t * dy && w.z == oz + t * dz
    requires q.a == dx * dx + dy * dy + dz * dz
    requires q.halfB == ox * dx + oy * dy + oz * dz
    requires q.c + k == ox * ox + oy * oy + oz * oz
    ensures LengthSquared(w) == Poly(q, t) + k
  {
    Square(ox, t, dx);
    Square(oy, t, dy);
    Square(oz, t, dz);
  }

  lemma Square(o: real, t: real, d: real)
    ensures (o + t * d) * (o + t * d) == o * o + 2.0 * t * (o * d) + t * t * (d * d)
  {
  }

  /** A hit point lies on the sphere (for a ray whose direction is not zero). */
  lemma {:induction false} HitOnSphere(f: FloatOps, s: Sphere, r: Ray, tMin: Ext, tMax: Ext)
    requires SqrtLaw(f) && 0.0 < LengthSquared(r.direction)
    requires Hit(f, s, r, tMin, tMax).Some?
    ensures LengthSquared(Sub(Hit(f, s, r, tMin, tMax).value.p, s.center)) == s.radius * s.radius
  {
    var q := Coefficients(s.center, s.radius, r);
    NearestRootIsNearest(f, q, tMin, tMax);
    var rec := Hit(f, s, r, tMin, tMax).value;
    var t := rec.t;
    assert t == NearestRoot(f, q, tMin, tMax).value && rec.p == At(r, t);
    assert IsRoot(q, t);
    DistanceAlongRay(s.center, s.radius, r, t);
  }

  /** The sphere is hit exactly when some parameter in `[t_min, t_max]` puts the ray on
      the sphere, and then at the nearest such parameter. */
  lemma {:induction false} HitIsNearest(f: FloatOps, s: Sphere, r: Ray, tMin: Ext, tMax: Ext)
    requires SqrtLaw(f) && 0.0 < LengthSquared(r.direction)
    ensures var res := Hit(f, s, r, tMin, tMax);
            && (res.None? <==> forall t | InRange(t, tMin, tMax) ::
                                 LengthSquared(Sub(At(r, t), s.center)) != s.radius * s.radius)
            && (res.Some? ==> forall t | InRange(t, tMin, tMax) &&
                                 LengthSquared(Sub(At(r, t), s.center)) == s.radius * s.radius ::
                                 res.value.t <= t)
  {
    var q := Coefficients(s.center, s.radius, r);
    NearestRootIsNearest(f, q, tMin, tMax);
    RootsOnSphere(s.center, s.radius, r);
    var res, root := Hit(f, s, r, tMin, tMax), NearestRoot(f, q, tMin, tMax);
    assert res.None? <==> root.None?;
    if res.Some? {
      var nearest := root.value;
      assert res.value.t == nearest && IsRoot(q, nearest) && InRange(nearest, tMin, tMax);
      assert LengthSquared(Sub(At(r, nearest), s.center)) == s.radius * s.radius;
      forall t | InRange(t, tMin, tMax) && LengthSquared(Sub(At(r, t), s.center)) == s.radius * s.radius
        ensures nearest <= t
      {
        assert IsRoot(q, t);
      }
    } else {
      forall t | InRange(t, tMin, tMax)
        ensures LengthSquared(Sub(At(r, t), s.center)) != s.radius * s.radius
      {
        assert !IsRoot(q, t);
      }
    }
  }

  /** The roots of the sphere's quadratic are exactly the parameters at which the ray is on
      the sphere. */
  lemma RootsOnSphere(center: Vec3, radius: real, r: Ray)
    ensures forall t :: IsRoot(Coefficients(center, radius, r), t) <==>
                        LengthSquared(Sub(At(r, t), center)) == radius * radius
  {
    forall t ensures IsRoot(Coefficients(center, radius, r), t) <==>
                     LengthSquared(Sub(At(r, t), center)) == radius * radius {
      DistanceAlongRay(center, radius, r, t);
    }
  }

  /** For a non-negative radius every hit point lies in the bounding box. */
  lemma HitInsideBox(f: FloatOps, s: Sphere, r: Ray, tMin: Ext, tMax: Ext, time0: real, time1: real)
    requires SqrtLaw(f) && 0.0 < LengthSquared(r.direction) && 0.0 <= s.radius
    requires Hit(f, s, r, tMin, tMax).Some?
    ensures Inside(BoundingBox(s, time0, time1).value, Hit(f, s, r, tMin, tMax).value.p)
  {
    HitOnSphere(f, s, r, tMin, tMax);
    OnSphereInsideBox(s.center, s.radius, Hit(f, s, r, tMin, tMax).value.p);
  }

  /** A point on the sphere lies in its radius box. */
  lemma {:induction false} OnSphereInsideBox(center: Vec3, radius: real, p: Vec3)
    requires 0.0 <= radius && LengthSquared(Sub(p, center)) == radius * radius
    ensures Inside(RadiusBox(center, radius), p)
  {
    var e := Sub(p, center);
    ComponentBound(e.x, e.y * e.y + e.z * e.z, radius);
    ComponentBound(e.y, e.x * e.x + e.z * e.z, radius);
    ComponentBound(e.z, e.x * e.x + e.y * e.y, radius);
  }

  /** `x^2 + rest = radius^2` with `rest >= 0` bounds `|x|` by `radius`. */
  lemma ComponentBound(x: real, rest: real, radius: real)
    requires 0.0 <= radius && 0.0 <= rest && x * x + rest == radius * radius
    ensures Abs(x) <= radius
  {
    if radius < Abs(x) {
      assert Abs(x) * Abs(x) == x * x;
      assert Abs(x) * Abs(x) - radius * radius == (Abs(x) - radius) * (Abs(x) + radius);
      MulPos(Abs(x) - radius, Abs(x) + radius);
    }
  }
}
