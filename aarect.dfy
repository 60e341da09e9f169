/**
 * Axis-aligned rectangles: `XYRect`, `XZRect` and `YZRect` differ only in
 * which axis is normal to the plane `k`. One datatype carries the plane and
 * the extents `[a0, a1]` and `[b0, b1]` on the two remaining axes, in the
 * order the constructors take them (x before y before z). Computations are
 * done in the rectangle's frame: first extent axis, second extent axis,
 * normal axis.
 */
module Aarect {
  import opened Wrappers
  import opened Interval
  import opened Vec3
  import opened Ray
  import opened Aabb
  import opened HitRecord

  datatype Plane = XY | XZ | YZ

  datatype Rect = Rect(plane: Plane, a0: real, a1: real, b0: real, b1: real, k: real, material: Material)

  /** The coordinates of `v` in the frame of `plane`: first extent axis, second extent axis, normal axis. */
  function Local(plane: Plane, v: Vec3): Vec3 {
    match plane
    case XY => v
    case XZ => Vec3(v.e0, v.e2, v.e1)
    case YZ => Vec3(v.e1, v.e2, v.e0)
  }

  /** The point with frame coordinates `(a, b, n)`. */
  function Place(plane: Plane, a: real, b: real, n: real): (r: Vec3)
    ensures Local(plane, r) == Vec3(a, b, n)
  {
    match plane
    case XY => Vec3(a, b, n)
    case XZ => Vec3(a, n, b)
    case YZ => Vec3(n, a, b)
  }

  /** `Place` inverts `Local`, so the frame loses nothing. */
  lemma PlaceLocal(plane: Plane, v: Vec3)
    ensures var l := Local(plane, v); Place(plane, l.e0, l.e1, l.e2) == v
  {
  }

  /** `XYRect::new(x0, x1, y0, y1, k, material)`. */
  function XYRect(x0: real, x1: real, y0: real, y1: real, k: real, material: Material): (r: Rect)
    ensures Place(r.plane, r.a0, r.b0, r.k) == Vec3(x0, y0, k)
    ensures Place(r.plane, r.a1, r.b1, r.k) == Vec3(x1, y1, k)
    ensures r.material == material
  {
    Rect(XY, x0, x1, y0, y1, k, material)
  }

  /** `XZRect::new(x0, x1, z0, z1, k, material)`: the plane is `y = k`. */
  function XZRect(x0: real, x1: real, z0: real, z1: real, k: real, material: Material): (r: Rect)
    ensures Place(r.plane, r.a0, r.b0, r.k) == Vec3(x0, k, z0)
    ensures Place(r.plane, r.a1, r.b1, r.k) == Vec3(x1, k, z1)
    ensures r.material == material
  {
    Rect(XZ, x0, x1, z0, z1, k, material)
  }

  /** `YZRect::new(y0, y1, z0, z1, k, material)`: the plane is `x = k`. */
  function YZRect(y0: real, y1: real, z0: real, z1: real, k: real, material: Material): (r: Rect)
    ensures Place(r.plane, r.a0, r.b0, r.k) == Vec3(k, y0, z0)
    ensures Place(r.plane, r.a1, r.b1, r.k) == Vec3(k, y1, z1)
    ensures r.material == material
  {
    Rect(YZ, y0, y1, z0, z1, k, material)
  }

  /** The thickness added on either side of the plane so that the box is not flat. */
  const Padding: real := 0.0001

  /**
   * `bounding_box`: the rectangle's extents on its two axes and `k` padded
   * on the normal axis, whatever the time interval.
   */
  function BoundingBox(r: Rect, time0: real, time1: real): (b: Option<Aabb>)
    ensures b.Some?
    ensures Local(r.plane, b.value.minimum) == Vec3(r.a0, r.b0, r.k - Padding)
    ensures Local(r.plane, b.value.maximum) == Vec3(r.a1, r.b1, r.k + Padding)
  {
    Some(Aabb(Place(r.plane, r.a0, r.b0, r.k - Padding), Place(r.plane, r.a1, r.b1, r.k + Padding)))
  }

  /** A point whose frame coordinates lie between those of two corners lies in their box. */
  lemma InsideByFrame(plane: Plane, p: Vec3, lo: Vec3, hi: Vec3)
    requires Local(plane, lo).e0 <= Local(plane, p).e0 <= Local(plane, hi).e0
    requires Local(plane, lo).e1 <= Local(plane, p).e1 <= Local(plane, hi).e1
    requires Local(plane, lo).e2 <= Local(plane, p).e2 <= Local(plane, hi).e2
    ensures Inside(p, Aabb(lo, hi))
  {
    match plane
    case XY =>
    case XZ =>
    case YZ =>
  }

  /** The outward normal: the unit vector along the normal axis. */
  function OutwardNormal(plane: Plane): (n: Vec3)
    ensures Local(plane, n) == Vec3(0.0, 0.0, 1.0)
  {
    Place(plane, 0.0, 0.0, 1.0)
  }

  /** The ray in the rectangle's frame. */
  function LocalRay(plane: Plane, ray: Ray): Ray {
    ray.(orig := Local(plane, ray.orig), dir := Local(plane, ray.dir))
  }

  /** Changing frame commutes with moving along the ray. */
  lemma LocalAt(plane: Plane, ray: Ray, t: real)
    ensures Local(plane, At(ray, t)) == At(LocalRay(plane, ray), t)
  {
    match plane
    case XY =>
    case XZ =>
    case YZ =>
  }

  /** The ray is not parallel to the rectangle's plane. */
  predicate Crosses(r: Rect, ray: Ray) {
    Local(r.plane, ray.dir).e2 != 0.0
  }

  /** The relative position of `x` along `[lo, hi]`. */
  function Fraction(x: real, lo: real, hi: real): real
    requires hi != lo
  {
    (x - lo) / (hi - lo)
  }

  /** The record written for a crossing at `t` whose frame coordinates on the extent axes are `x` and `y`. */
  function Record(r: Rect, ray: Ray, outward: Vec3, t: real, x: real, y: real): HitValue
    requires r.a1 != r.a0 && r.b1 != r.b0
  {
    var (front, normal) := FaceNormal(ray.dir, outward);
    HitValue(At(ray, t), normal, t, front, Some(r.material), Fraction(x, r.a0, r.a1), Fraction(y, r.b0, r.b1))
  }

  /** The parameter at which coordinate `o + t d` reaches `k`. */
  function Reach(k: real, o: real, d: real): real
    requires d != 0.0
  {
    (k - o) / d
  }

  /** Coordinate `o + t d` of a ray at parameter `t`. */
  function Along(o: real, d: real, t: real): real {
    o + t * d
  }

  /**
   * The hit test on `l`, the ray in the rectangle's frame: the plane is
   * crossed at `t`, which must lie in `[tMin, tMax]`, at a point whose two
   * extent coordinates must lie in the extents.
   */
  function FrameHit(r: Rect, l: Ray, ray: Ray, outward: Vec3, tMin: Bound, tMax: Bound): (h: Option<HitValue>)
    requires l.dir.e2 != 0.0 && r.a1 != r.a0 && r.b1 != r.b0
  {
    var t := Reach(r.k, l.orig.e2, l.dir.e2);
    if !Within(t, tMin, tMax) then None
    else
      var x := Along(l.orig.e0, l.dir.e0, t);
      var y := Along(l.orig.e1, l.dir.e1, t);
      if x < r.a0 || x > r.a1 || y < r.b0 || y > r.b1 then None
      else Some(Record(r, ray, outward, t, x, y))
  }

  /**
   * `hit`: rejected when the plane is crossed outside `[tMin, tMax]` or
   * outside the extents; otherwise every field of the record is written,
   * with `u` and `v` the crossing's relative position along the two extents
   * and the normal oriented from the axis normal.
   */
  function HitSpec(r: Rect, ray: Ray, tMin: Bound, tMax: Bound): Option<HitValue>
    requires Crosses(r, ray) && r.a1 != r.a0 && r.b1 != r.b0
  {
    FrameHit(r, LocalRay(r.plane, ray), ray, OutwardNormal(r.plane), tMin, tMax)
  }

  /** The parameter at which the ray crosses the rectangle's plane. */
  function PlaneT(r: Rect, ray: Ray): real
    requires Crosses(r, ray)
  {
    var l := LocalRay(r.plane, ray);
    Reach(r.k, l.orig.e2, l.dir.e2)
  }

  lemma CrossesPlane(o: real, d: real, k: real)
    requires d != 0.0
    ensures o + ((k - o) / d) * d == k
  {
  }

  /** A point of `[lo, hi]` has its relative position in the unit interval. */
  lemma FractionInUnit(x: real, lo: real, hi: real)
    requires lo < hi && lo <= x <= hi
    ensures 0.0 <= Fraction(x, lo, hi) <= 1.0
  {
    var w := hi - lo;
    var q := (x - lo) / w;
    assert q * w == x - lo;
    if q < 0.0 {
      assert q * w < 0.0;
    }
    if q > 1.0 {
      assert (q - 1.0) * w > 0.0;
      assert (q - 1.0) * w == q * w - w;
    }
  }

  /** The point of `l` at parameter `t`, coordinate by coordinate. */
  lemma AlongIsAt(l: Ray, t: real)
    ensures At(l, t) == Vec3(Along(l.orig.e0, l.dir.e0, t), Along(l.orig.e1, l.dir.e1, t), Along(l.orig.e2, l.dir.e2, t))
  {
  }

  /** A frame hit is reported exactly when the crossing is in range and inside both extents. */
  lemma FrameHitIff(r: Rect, l: Ray, ray: Ray, outward: Vec3, tMin: Bound, tMax: Bound)
    requires l.dir.e2 != 0.0 && r.a1 != r.a0 && r.b1 != r.b0
    ensures var t := Reach(r.k, l.orig.e2, l.dir.e2);
      var c := At(l, t);
      FrameHit(r, l, ray, outward, tMin, tMax).Some? <==> Within(t, tMin, tMax) && r.a0 <= c.e0 <= r.a1 && r.b0 <= c.e1 <= r.b1
  {
    AlongIsAt(l, Reach(r.k, l.orig.e2, l.dir.e2));
  }

  /** A frame hit is at the crossing, which lies on the plane, with the material and the oriented normal. */
  lemma FrameHitRecord(r: Rect, l: Ray, ray: Ray, outward: Vec3, tMin: Bound, tMax: Bound)
    requires l.dir.e2 != 0.0 && r.a1 != r.a0 && r.b1 != r.b0
    requires FrameHit(r, l, ray, outward, tMin, tMax).Some?
    ensures var t := Reach(r.k, l.orig.e2, l.dir.e2);
      var h := FrameHit(r, l, ray, outward, tMin, tMax).value;
      && h.t == t && h.p == At(ray, t) && At(l, t).e2 == r.k
      && h.material == Some(r.material)
      && (h.frontFace, h.normal) == FaceNormal(ray.dir, outward)
  {
    var t := Reach(r.k, l.orig.e2, l.dir.e2);
    AlongIsAt(l, t);
    CrossesPlane(l.orig.e2, l.dir.e2, r.k);
  }

  /** For increasing extents the surface coordinates of a frame hit lie in the unit square. */
  lemma FrameHitUnitSquare(r: Rect, l: Ray, ray: Ray, outward: Vec3, tMin: Bound, tMax: Bound)
    requires l.dir.e2 != 0.0 && r.a0 < r.a1 && r.b0 < r.b1
    requires FrameHit(r, l, ray, outward, tMin, tMax).Some?
    ensures 0.0 <= FrameHit(r, l, ray, outward, tMin, tMax).value.u <= 1.0
    ensures 0.0 <= FrameHit(r, l, ray, outward, tMin, tMax).value.v <= 1.0
  {
    var t := Reach(r.k, l.orig.e2, l.dir.e2);
    var x, y := Along(l.orig.e0, l.dir.e0, t), Along(l.orig.e1, l.dir.e1, t);
    assert FrameHit(r, l, ray, outward, tMin, tMax) == Some(Record(r, ray, outward, t, x, y));
    FractionInUnit(x, r.a0, r.a1);
    FractionInUnit(y, r.b0, r.b1);
  }

  /**
   * The rectangle reports a hit exactly when the plane is crossed within
   * `[tMin, tMax]` inside both extents; the hit is at the crossing, on the
   * plane, with the material set and the normal oriented against the ray.
   */
  lemma HitCases(r: Rect, ray: Ray, tMin: Bound, tMax: Bound)
    requires Crosses(r, ray) && r.a1 != r.a0 && r.b1 != r.b0
    ensures var t := PlaneT(r, ray);
      var c := Local(r.plane, At(ray, t));
      var h := HitSpec(r, ray, tMin, tMax);
      && (h.Some? <==> Within(t, tMin, tMax) && r.a0 <= c.e0 <= r.a1 && r.b0 <= c.e1 <= r.b1)
      && (h.Some? ==> h.value.t == t && h.value.p == At(ray, t) && c.e2 == r.k)
      && (h.Some? ==> h.value.material == Some(r.material))
      && (h.Some? ==> (h.value.frontFace, h.value.normal) == FaceNormal(ray.dir, OutwardNormal(r.plane)))
      && (h.Some? && r.a0 < r.a1 && r.b0 < r.b1 ==> 0.0 <= h.value.u <= 1.0 && 0.0 <= h.value.v <= 1.0)
  {
    var l := LocalRay(r.plane, ray);
    FrameHitIff(r, l, ray, OutwardNormal(r.plane), tMin, tMax);
    if HitSpec(r, ray, tMin, tMax).Some? {
      FrameHitRecord(r, l, ray, OutwardNormal(r.plane), tMin, tMax);
      if r.a0 < r.a1 && r.b0 < r.b1 {
        FrameHitUnitSquare(r, l, ray, OutwardNormal(r.plane), tMin, tMax);
      }
    }
    LocalAt(r.plane, ray, PlaneT(r, ray));
  }

  /** The reported point lies inside the rectangle's bounding box. */
  lemma HitLiesInBox(r: Rect, ray: Ray, tMin: Bound, tMax: Bound)
    requires Crosses(r, ray) && r.a1 != r.a0 && r.b1 != r.b0
    requires HitSpec(r, ray, tMin, tMax).Some?
    ensures Inside(HitSpec(r, ray, tMin, tMax).value.p, BoundingBox(r, 0.0, 0.0).value)
  {
    HitCases(r, ray, tMin, tMax);
    var b := BoundingBox(r, 0.0, 0.0).value;
    InsideByFrame(r.plane, HitSpec(r, ray, tMin, tMax).value.p, b.minimum, b.maximum);
  }

  /** The imperative `hit`: returns before any write on rejection. */
  method Hit(r: Rect, ray: Ray, tMin: Bound, tMax: Bound, rec: HitRecord) returns (hit: bool)
    requires Crosses(r, ray) && r.a1 != r.a0 && r.b1 != r.b0
    modifies rec
    ensures hit == HitSpec(r, ray, tMin, tMax).Some?
    ensures rec.Value() == HitSpec(r, ray, tMin, tMax).GetOr(old(rec.Value()))
  {
    hit := HitInFrame(r, LocalRay(r.plane, ray), ray, OutwardNormal(r.plane), tMin, tMax, rec);
  }

  /** The body of `hit`, on the ray in the rectangle's frame. */
  method HitInFrame(r: Rect, l: Ray, ray: Ray, outward: Vec3, tMin: Bound, tMax: Bound, rec: HitRecord) returns (hit: bool)
    requires l.dir.e2 != 0.0 && r.a1 != r.a0 && r.b1 != r.b0
    modifies rec
    ensures hit == FrameHit(r, l, ray, outward, tMin, tMax).Some?
    ensures rec.Value() == FrameHit(r, l, ray, outward, tMin, tMax).GetOr(old(rec.Value()))
  {
    ghost var spec := FrameHit(r, l, ray, outward, tMin, tMax);
    var t := Reach(r.k, l.orig.e2, l.dir.e2);
    if !Within(t, tMin, tMax) {
      assert spec == None;
      return false;
    }
    var x := Along(l.orig.e0, l.dir.e0, t);
    var y := Along(l.orig.e1, l.dir.e1, t);
    if x < r.a0 || x > r.a1 || y < r.b0 || y > r.b1 {
      assert spec == None;
      return false;
    }
    assert spec == Some(Record(r, ray, outward, t, x, y));
    Write(r, ray, outward, t, x, y, rec);
    return true;
  }

  /** The writes of a successful `hit`, in the renderer's order: `u`, `v`, `t`, the normal, the material, `p`. */
  method Write(r: Rect, ray: Ray, outward: Vec3, t: real, x: real, y: real, rec: HitRecord)
    requires r.a1 != r.a0 && r.b1 != r.b0
    modifies rec
    ensures rec.Value() == Record(r, ray, outward, t, x, y)
  {
    rec.u := Fraction(x, r.a0, r.a1);
    rec.v := Fraction(y, r.b0, r.b1);
    rec.t := t;
    rec.SetFaceNormal(ray, outward);
    rec.material := Some(r.material);
    rec.p := At(ray, t);
  }
}
