/** An axis-aligned box made of six rectangles. */
module BoxStruct {
  import opened Wrappers
  import opened Interval
  import opened Vec3
  import opened Ray
  import opened Aabb
  import opened HitRecord
  import Aarect
  import opened Hittable
  import opened HittableList

  /** The six sides: the two XY faces, the two XZ faces, the two YZ faces, each far face first. */
  function Sides(min: Vec3, max: Vec3, material: Material): seq<Hittable> {
    [
      RectObj(Aarect.XYRect(min.X(), max.X(), min.Y(), max.Y(), max.Z(), material)),
      RectObj(Aarect.XYRect(min.X(), max.X(), min.Y(), max.Y(), min.Z(), material)),
      RectObj(Aarect.XZRect(min.X(), max.X(), min.Z(), max.Z(), max.Y(), material)),
      RectObj(Aarect.XZRect(min.X(), max.X(), min.Z(), max.Z(), min.Y(), material)),
      RectObj(Aarect.YZRect(min.Y(), max.Y(), min.Z(), max.Z(), max.X(), material)),
      RectObj(Aarect.YZRect(min.Y(), max.Y(), min.Z(), max.Z(), min.X(), material))
    ]
  }

  /** The lower corner of a side, in world coordinates. */
  function LowCorner(r: Aarect.Rect): Vec3 {
    Aarect.Place(r.plane, r.a0, r.b0, r.k)
  }

  /** The upper corner of a side, in world coordinates. */
  function HighCorner(r: Aarect.Rect): Vec3 {
    Aarect.Place(r.plane, r.a1, r.b1, r.k)
  }

  /**
   * Each side spans the box on its two in-plane axes and lies on one of the
   * box's faces: its corners are the box's corners with the normal axis set
   * to that face; all six share the material, and the far face of each pair
   * comes first.
   */
  lemma SidesSpanBox(min: Vec3, max: Vec3, material: Material)
    ensures var s := Sides(min, max, material);
      |s| == 6 && forall i :: 0 <= i < 6 ==> s[i].RectObj? && s[i].rect.material == material
    ensures var s := Sides(min, max, material);
      s[0].rect.plane == Aarect.XY && LowCorner(s[0].rect) == Vec3(min.X(), min.Y(), max.Z()) && HighCorner(s[0].rect) == max
      && s[1].rect.plane == Aarect.XY && LowCorner(s[1].rect) == min && HighCorner(s[1].rect) == Vec3(max.X(), max.Y(), min.Z())
      && s[2].rect.plane == Aarect.XZ && LowCorner(s[2].rect) == Vec3(min.X(), max.Y(), min.Z()) && HighCorner(s[2].rect) == max
      && s[3].rect.plane == Aarect.XZ && LowCorner(s[3].rect) == min && HighCorner(s[3].rect) == Vec3(max.X(), min.Y(), max.Z())
      && s[4].rect.plane == Aarect.YZ && LowCorner(s[4].rect) == Vec3(max.X(), min.Y(), min.Z()) && HighCorner(s[4].rect) == max
      && s[5].rect.plane == Aarect.YZ && LowCorner(s[5].rect) == min && HighCorner(s[5].rect) == Vec3(min.X(), max.Y(), max.Z())
  {
  }

  /** `Box::new`: the six sides pushed into a fresh list, in order. */
  method New(min: Vec3, max: Vec3, material: Material) returns (b: Hittable)
    ensures b == BoxObj(min, max, Sides(min, max, material))
  {
    var sides := new HittableList();
    sides.Add(RectObj(Aarect.XYRect(min.X(), max.X(), min.Y(), max.Y(), max.Z(), material)));
    sides.Add(RectObj(Aarect.XYRect(min.X(), max.X(), min.Y(), max.Y(), min.Z(), material)));
    sides.Add(RectObj(Aarect.XZRect(min.X(), max.X(), min.Z(), max.Z(), max.Y(), material)));
    sides.Add(RectObj(Aarect.XZRect(min.X(), max.X(), min.Z(), max.Z(), min.Y(), material)));
    sides.Add(RectObj(Aarect.YZRect(min.Y(), max.Y(), min.Z(), max.Z(), max.X(), material)));
    sides.Add(RectObj(Aarect.YZRect(min.Y(), max.Y(), min.Z(), max.Z(), min.X(), material)));
    b := BoxObj(min, max, sides.objects);
  }

  /** `bounding_box`: exactly the box's corners, whatever the times. */
  lemma BoundingBoxIsCorners(min: Vec3, max: Vec3, material: Material, time0: real, time1: real)
    ensures Timed(BoxObj(min, max, Sides(min, max, material)))
    ensures BoundingBox(BoxObj(min, max, Sides(min, max, material)), time0, time1) == Some(Aabb(min, max))
  {
  }

  /** Two scans over the same children agree, whatever holds them. */
  lemma {:induction false} ScanDependsOnChildrenOnly(h: Hittable, g: Hittable, n: nat, ray: Ray, tMin: Bound, tMax: Bound, rec: HitValue, env: Env, path: seq<nat>)
    requires (h.BoxObj? || h.ListObj?) && (g.BoxObj? || g.ListObj?) && Children(h) == Children(g)
    requires n <= |Children(h)| && Defined(h, ray) && Defined(g, ray) && IsSqrt(env.sqrt)
    ensures ListScan(h, n, ray, tMin, tMax, rec, env, path) == ListScan(g, n, ray, tMin, tMax, rec, env, path)
  {
    if n > 0 {
      ScanDependsOnChildrenOnly(h, g, n - 1, ray, tMin, tMax, rec, env, path);
    }
  }

  /** `Box::hit`: exactly the list scan over its sides. */
  lemma HitIsSidesScan(min: Vec3, max: Vec3, sides: seq<Hittable>, ray: Ray, tMin: Bound, tMax: Bound, rec: HitValue, env: Env, path: seq<nat>)
    requires Defined(BoxObj(min, max, sides), ray) && IsSqrt(env.sqrt)
    ensures Defined(ListObj(sides), ray)
    ensures HitSpec(BoxObj(min, max, sides), ray, tMin, tMax, rec, env, path) == HitSpec(ListObj(sides), ray, tMin, tMax, rec, env, path)
  {
    ScanDependsOnChildrenOnly(BoxObj(min, max, sides), ListObj(sides), |sides|, ray, tMin, tMax, rec, env, path);
  }
}
