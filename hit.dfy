/** Hit records (src/hit.rs:7-12).

    The record refers to the material of the surface that was hit; the
    material type is a parameter here so that this module does not depend on
    the material module, which itself reads hit records. */
module Hit {
  import opened Vec

  /** Where a ray meets a surface: the ray parameter `t`, the point, the
      surface normal there, and the surface's material (copied; the source
      holds a reference to it). */
  datatype HitRecord<M> = HitRecord(t: real, p: Vec3, normal: Vec3, material: M)

  datatype Option<T> = None | Some(value: T)
}
