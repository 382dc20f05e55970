/** `HitRecord` (src/rt/shapes/hit_record.rs): what a ray query reports about the
    nearest intersection. The record refers to the material of the surface hit. */
module HitRecords {
  import opened Floats
  import opened Vectors
  import opened Rays
  import opened Materials

  datatype HitRecord = HitRecord(p: Vec3, normal: Vec3, t: real, u: real, v: real,
                                 frontFace: bool, material: Material)

  /** The pair `(front_face, normal)` of `get_face_normal`. */
  datatype FaceNormal = FaceNormal(frontFace: bool, normal: Vec3)

  /** `get_face_normal`: the ray meets the front face when it travels against the
      outward normal; the stored normal always faces the incoming ray. */
  function GetFaceNormal(r: Ray, outwardNormal: Vec3): (fn: FaceNormal)
    ensures fn.frontFace <==> Dot(r.direction, outwardNormal) < 0.0
    ensures fn.frontFace ==> fn.normal == outwardNormal
    ensures !fn.frontFace ==> fn.normal == Neg(outwardNormal)
  {
    var frontFace := Dot(r.direction, outwardNormal) < 0.0;
    FaceNormal(frontFace, if frontFace then outwardNormal else Neg(outwardNormal))
  }

  /** `HitRecord::new`: the geometric fields and the material are stored as given,
      the face orientation comes from `get_face_normal`. */
  function New(p: Vec3, t: real, u: real, v: real, r: Ray, outwardNormal: Vec3,
               material: Material): (rec: HitRecord)
    ensures rec.p == p && rec.t == t && rec.u == u && rec.v == v && rec.material == material
    ensures rec.frontFace <==> Dot(r.direction, outwardNormal) < 0.0
    ensures FaceNormal(rec.frontFace, rec.normal) == GetFaceNormal(r, outwardNormal)
  {
    var fn := GetFaceNormal(r, outwardNormal);
    HitRecord(p, fn.normal, t, u, v, fn.frontFace, material)
  }

  /** `set_face_normal`: the record is owned by the caller, so the in-place assignment of
      `front_face` and `normal` is the record after the update. */
  function SetFaceNormal(rec: HitRecord, r: Ray, outwardNormal: Vec3): (rec': HitRecord)
    ensures rec'.p == rec.p && rec'.t == rec.t && rec'.u == rec.u && rec'.v == rec.v
    ensures rec'.material == rec.material
    ensures FaceNormal(rec'.frontFace, rec'.normal) == GetFaceNormal(r, outwardNormal)
  {
    var fn := GetFaceNormal(r, outwardNormal);
    rec.(frontFace := fn.frontFace, normal := fn.normal)
  }

  // ---------------------------------------------------------------- properties

  /** The stored normal never points along the ray: it faces the incoming ray. */
  lemma NormalFacesRay(r: Ray, outwardNormal: Vec3)
    ensures Dot(r.direction, GetFaceNormal(r, outwardNormal).normal) <= 0.0
  {
  }

  /** A grazing ray (perpendicular to the normal) counts as hitting the back face. */
  lemma GrazingIsBackFace(r: Ray, outwardNormal: Vec3)
    requires Dot(r.direction, outwardNormal) == 0.0
    ensures !GetFaceNormal(r, outwardNormal).frontFace
    ensures GetFaceNormal(r, outwardNormal).normal == Neg(outwardNormal)
  {
  }

  /** Building a record and then re-orienting it against the same ray and normal changes
      nothing: `new` and `set_face_normal` agree. */
  lemma SetFaceNormalAfterNew(p: Vec3, t: real, u: real, v: real, r: Ray, n: Vec3, m: Material)
    ensures SetFaceNormal(New(p, t, u, v, r, n, m), r, n) == New(p, t, u, v, r, n, m)
  {
  }
}
