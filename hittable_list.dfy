/** A growable list of objects, queried by the closest-so-far scan. */
module HittableList {
  import opened Interval
  import opened Vec3
  import opened Ray
  import opened HitRecord
  import opened Hittable

  class HittableList {
    var objects: seq<Hittable>

    /** `new`: no objects. */
    constructor()
      ensures objects == []
    {
      objects := [];
    }

    /** `add`: appends at the end; the earlier objects stay where they were. */
    method Add(obj: Hittable)
      modifies this
      ensures objects == old(objects) + [obj]
    {
      objects := objects + [obj];
    }

    /** The list as a scene object. */
    function AsHittable(): (h: Hittable)
      reads this
      ensures h.ListObj? && Children(h) == objects
    {
      ListObj(objects)
    }

    /** `hit`: the closest-so-far scan over the objects in order. */
    method Hit(ray: Ray, tMin: Bound, tMax: Bound, rec: HitRecord, env: Env, path: seq<nat>) returns (hit: bool)
      requires Defined(AsHittable(), ray) && IsSqrt(env.sqrt)
      modifies rec
      ensures hit == ListScan(old(AsHittable()), |objects|, ray, tMin, tMax, old(rec.Value()), env, path).Some?
      ensures rec.Value() == ListScan(old(AsHittable()), |objects|, ray, tMin, tMax, old(rec.Value()), env, path).GetOr(old(rec.Value()))
    {
      hit := ScanList(AsHittable(), ray, tMin, tMax, rec, env, path);
    }
  }
}
