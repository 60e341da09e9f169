/** A ray: origin, direction and the shutter time at which it was cast. */
module Ray {
  import opened Vec3

  datatype Ray = Ray(orig: Vec3, dir: Vec3, time: real)

  /** `Ray::new` copies origin and direction; the time is 0 (as `new_at_t0`). */
  function New(origin: Vec3, direction: Vec3): Ray {
    Ray(origin, direction, 0.0)
  }

  /** `Ray::empty`: zero origin and zero direction. */
  function Empty(): Ray {
    New(Origin, Origin)
  }

  /** The point `orig + t * dir`. */
  function At(ray: Ray, t: real): Vec3 {
    Add(ray.orig, Scale(ray.dir, t))
  }

  /** Every coordinate of `At` moves by `t` times the direction's coordinate. */
  lemma AtComponents(ray: Ray, t: real, i: nat)
    requires i < 3
    ensures At(ray, t).Get(i) == ray.orig.Get(i) + t * ray.dir.Get(i)
  {
  }

  /**
   * Travelling `t1 + t2` along a ray is travelling `t1`, then `t2` along the
   * ray with the same direction from the point reached.
   */
  lemma AtShift(ray: Ray, t1: real, t2: real)
    ensures At(ray, t1 + t2) == At(Ray(At(ray, t1), ray.dir, ray.time), t2)
  {
    assert (t1 + t2) * ray.dir.e0 == t1 * ray.dir.e0 + t2 * ray.dir.e0;
    assert (t1 + t2) * ray.dir.e1 == t1 * ray.dir.e1 + t2 * ray.dir.e1;
    assert (t1 + t2) * ray.dir.e2 == t1 * ray.dir.e2 + t2 * ray.dir.e2;
  }

  /** The point at parameter 0 is the origin. */
  lemma AtZero(ray: Ray)
    ensures At(ray, 0.0) == ray.orig
  {
  }
}
