/** `Camera` (src/rt/camera.rs): a thin-lens camera with a viewport at the focus distance
    and a shutter interval. Its fields are computed once by `new` and never updated. */
module Cameras {
  import opened Floats
  import opened Vectors
  import opened Rays
  import opened Sampling

  datatype Camera = Camera(
    origin: Vec3,
    lowerLeftCorner: Vec3,
    horizontal: Vec3,
    vertical: Vec3,
    u: Vec3,
    v: Vec3,
    w: Vec3,
    lensRadius: real,
    time0: real,
    time1: real,
    aspectRatio: real,
    width: nat,
    height: nat,
    samplesPerPixel: nat,
    maxDepth: nat)

  /** `Camera::new`: the basis `w` (from `lookat` to `lookfrom`), `u` (normalised `vup × w`)
      and `v = w × u`; the viewport `2 tan(vfov / 2)` high and `aspect_ratio` times as
      wide, placed at `focus_dist` along `-w`; half the aperture as lens radius; and the
      image height `width / aspect_ratio` truncated to an integer. */
  function New(f: FloatOps, lookfrom: Vec3, lookat: Vec3, vup: Vec3, vfov: real, aperture: real,
               focusDist: real, time0: real, time1: real, aspectRatio: real,
               width: nat, samplesPerPixel: nat, maxDepth: nat): (cam: Camera)
    ensures cam.origin == lookfrom && cam.time0 == time0 && cam.time1 == time1
    ensures cam.aspectRatio == aspectRatio && cam.width == width
    ensures cam.samplesPerPixel == samplesPerPixel && cam.maxDepth == maxDepth
    ensures cam.lensRadius * 2.0 == aperture
    ensures 0.0 < aspectRatio ==>
              cam.height as real <= width as real / aspectRatio < cam.height as real + 1.0
    ensures cam.w == UnitVector(f, Sub(lookfrom, lookat))
    ensures cam.u == UnitVector(f, Cross(vup, cam.w))
    ensures Dot(cam.v, cam.w) == 0.0 && Dot(cam.v, cam.u) == 0.0
    ensures Add(Add(Add(cam.lowerLeftCorner, Scale(cam.horizontal, 0.5)), Scale(cam.vertical, 0.5)),
                ScaleLeft(focusDist, cam.w)) == lookfrom
  {
    var theta := DegreesToRadians(vfov);
    var h := f.tan(theta / 2.0);
    var viewportHeight := 2.0 * h;
    var viewportWidth := aspectRatio * viewportHeight;
    var w := UnitVector(f, Sub(lookfrom, lookat));
    var u := UnitVector(f, Cross(vup, w));
    var v := Cross(w, u);
    var origin := lookfrom;
    var horizontal := ScaleLeft(focusDist * viewportWidth, u);
    var vertical := ScaleLeft(focusDist * viewportHeight, v);
    var lowerLeftCorner := Sub(Sub(Sub(origin, Div(f, horizontal, 2.0)), Div(f, vertical, 2.0)), ScaleLeft(focusDist, w));
    var lensRadius := aperture / 2.0;
    Camera(origin, lowerLeftCorner, horizontal, vertical, u, v, w, lensRadius, time0, time1,
           aspectRatio, width, AsUsize(FDiv(f, width as real, aspectRatio)), samplesPerPixel, maxDepth)
  }

  /** `get_ray(s, t)`: from a point of the lens disk (scaled by the lens radius, in the
      `u`/`v` plane) towards the viewport point at (s, t), at a time drawn from the
      shutter interval. */
  function GetRay(cam: Camera, s: real, t: real, disk: DiskDraws, timeDraw: Unit): (r: Ray)
    ensures cam.time0 < cam.time1 ==> cam.time0 <= r.time < cam.time1
  {
    var rd := ScaleLeft(cam.lensRadius, InUnitDisk(disk));
    var offset := Add(Scale(cam.u, rd.x), Scale(cam.v, rd.y));
    Ray(Add(cam.origin, offset),
        Sub(Sub(Add(Add(cam.lowerLeftCorner, ScaleLeft(s, cam.horizontal)), ScaleLeft(t, cam.vertical)), cam.origin), offset),
        RandomBetween(cam.time0, cam.time1, timeDraw))
  }

  // ---------------------------------------------------------------- properties

  /** With no aperture every ray starts at the camera origin and reaches the viewport
      point at (s, t). */
  lemma {:induction false} PinholeRays(cam: Camera, s: real, t: real, disk: DiskDraws, timeDraw: Unit)
    requires cam.lensRadius == 0.0
    ensures var r := GetRay(cam, s, t, disk, timeDraw);
            && r.origin == cam.origin
            && Add(r.origin, r.direction)
               == Add(Add(cam.lowerLeftCorner, ScaleLeft(s, cam.horizontal)), ScaleLeft(t, cam.vertical))
  {
    var p := InUnitDisk(disk);
    var rd := ScaleLeft(cam.lensRadius, p);
    assert rd.x == p.x * 0.0 && rd.y == p.y * 0.0;
    assert rd.x == 0.0 && rd.y == 0.0;
    var offset := Add(Scale(cam.u, rd.x), Scale(cam.v, rd.y));
    assert Scale(cam.u, 0.0) == Vec3(0.0, 0.0, 0.0) && Scale(cam.v, 0.0) == Vec3(0.0, 0.0, 0.0);
    assert offset == Vec3(0.0, 0.0, 0.0);
    var target := Add(Add(cam.lowerLeftCorner, ScaleLeft(s, cam.horizontal)), ScaleLeft(t, cam.vertical));
    assert GetRay(cam, s, t, disk, timeDraw).direction == Sub(Sub(target, cam.origin), offset);
  }

  /** A pinhole camera's central ray points straight at the viewport centre, `focus_dist`
      along `-w`. */
  lemma {:induction false} PinholeCentre(f: FloatOps, lookfrom: Vec3, lookat: Vec3, vup: Vec3, vfov: real,
                                         focusDist: real, time0: real, time1: real, aspectRatio: real,
                                         width: nat, samplesPerPixel: nat, maxDepth: nat,
                                         disk: DiskDraws, timeDraw: Unit)
    ensures var cam := New(f, lookfrom, lookat, vup, vfov, 0.0, focusDist, time0, time1, aspectRatio,
                           width, samplesPerPixel, maxDepth);
            GetRay(cam, 0.5, 0.5, disk, timeDraw).direction == Neg(ScaleLeft(focusDist, cam.w))
  {
    var cam := New(f, lookfrom, lookat, vup, vfov, 0.0, focusDist, time0, time1, aspectRatio,
                   width, samplesPerPixel, maxDepth);
    PinholeRays(cam, 0.5, 0.5, disk, timeDraw);
    assert ScaleLeft(0.5, cam.horizontal) == Scale(cam.horizontal, 0.5);
    assert ScaleLeft(0.5, cam.vertical) == Scale(cam.vertical, 0.5);
  }
}
