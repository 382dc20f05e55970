/** `ScatterRecord` (src/rt/materials/scatter_record.rs): a specular bounce carries the
    bounced ray itself, a diffuse one the density to sample the bounce from. */
module ScatterRecords {
  import opened Vectors
  import opened Rays
  import opened Pdfs

  datatype ScatterRecord =
    | Specular(attenuation: Vec3, ray: Ray)
    | Diffuse(attenuation: Vec3, pdf: Pdf)
}
