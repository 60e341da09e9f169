/** A sphere whose centre moves linearly from `center0` at `time0` to `center1` at `time1`. */
module MovingSphere {
  import opened Wrappers
  import opened Interval
  import opened Vec3
  import opened Ray
  import opened Aabb
  import opened HitRecord
  import Sphere

  datatype MovingSphere = MovingSphere(
    center0: Vec3,
    center1: Vec3,
    time0: real,
    time1: real,
    radius: real,
    material: Material)

  /** `center`: linear interpolation (and extrapolation) of the centre in time. */
  function Center(s: MovingSphere, time: real): Vec3
    requires s.time1 != s.time0
  {
    Add(s.center0, Scale(Sub(s.center1, s.center0), (time - s.time0) / (s.time1 - s.time0)))
  }

  lemma CenterEndpoints(s: MovingSphere)
    requires s.time1 != s.time0
    ensures Center(s, s.time0) == s.center0
    ensures Center(s, s.time1) == s.center1
  {
    DivSelf(s.time1 - s.time0);
  }

  lemma DivSelf(d: real)
    requires d != 0.0
    ensures d / d == 1.0
  {
  }

  /** The cube of half-width `radius` around the centre at `time`. */
  function BoxAt(s: MovingSphere, time: real): Aabb
    requires s.time1 != s.time0
  {
    var r := Vec3(s.radius, s.radius, s.radius);
    Aabb(Sub(Center(s, time), r), Add(Center(s, time), r))
  }

  /** `bounding_box`: always present, the union of the boxes at the two query times. */
  function BoundingBox(s: MovingSphere, time0: real, time1: real): (r: Option<Aabb>)
    requires s.time1 != s.time0
    ensures r.Some?
    ensures Contains(r.value, BoxAt(s, time0)) && Contains(r.value, BoxAt(s, time1))
    ensures forall c :: Contains(c, BoxAt(s, time0)) && Contains(c, BoxAt(s, time1)) ==> Contains(c, r.value)
  {
    Some(SurroundingBox(BoxAt(s, time0), BoxAt(s, time1)))
  }

  /** With a non-negative radius the box holds the centre at both query times. */
  lemma BoundingBoxHoldsCenters(s: MovingSphere, time0: real, time1: real)
    requires s.time1 != s.time0 && 0.0 <= s.radius
    ensures Inside(Center(s, time0), BoundingBox(s, time0, time1).value)
    ensures Inside(Center(s, time1), BoundingBox(s, time0, time1).value)
  {
    var b := BoundingBox(s, time0, time1).value;
    assert Inside(Center(s, time0), BoxAt(s, time0));
    assert Inside(Center(s, time1), BoxAt(s, time1));
    assert Contains(b, BoxAt(s, time0)) && Contains(b, BoxAt(s, time1));
    assert forall i :: 0 <= i < 3 ==> b.minimum.Get(i) <= BoxAt(s, time0).minimum.Get(i);
  }

  /** The ray's time fixes where the sphere is: the static sphere it meets. */
  function Snapshot(s: MovingSphere, time: real): Sphere.Sphere
    requires s.time1 != s.time0
  {
    Sphere.Sphere(Center(s, time), s.radius)
  }

  /**
   * `MovingSphere::hit` on record `rec`: the root selection of the static
   * sphere at the centre for the ray's time; a hit writes `t`, `p`, the
   * oriented normal and the material and keeps `u` and `v`.
   */
  function HitSpec(s: MovingSphere, ray: Ray, tMin: Bound, tMax: Bound, sqrt: real -> real, rec: HitValue): (r: Option<HitValue>)
    requires LengthSquared(ray.dir) != 0.0 && s.radius != 0.0 && s.time1 != s.time0
    ensures r.Some? ==> Within(r.value.t, tMin, tMax) && r.value.p == At(ray, r.value.t)
    ensures r.Some? ==> (r.value.frontFace, r.value.normal) == FaceNormal(ray.dir, Scale(Sub(r.value.p, Center(s, ray.time)), 1.0 / s.radius))
    ensures r.Some? ==> r.value.material == Some(s.material) && r.value.u == rec.u && r.value.v == rec.v
  {
    var center := Center(s, ray.time);
    match Sphere.Root(Snapshot(s, ray.time), ray, tMin, tMax, sqrt)
    case None => None
    case Some(root) =>
      var p := At(ray, root);
      var (front, normal) := FaceNormal(ray.dir, Scale(Sub(p, center), 1.0 / s.radius));
      Some(rec.(t := root, p := p, normal := normal, frontFace := front, material := Some(s.material)))
  }

  /**
   * A moving sphere behaves as the static sphere at the ray's time: the same
   * hit or miss, the same point, parameter and orientation.
   */
  lemma HitIsStaticHitAtRayTime(s: MovingSphere, ray: Ray, tMin: Bound, tMax: Bound, sqrt: real -> real, rec: HitValue)
    requires LengthSquared(ray.dir) != 0.0 && s.radius != 0.0 && s.time1 != s.time0
    ensures var moving := HitSpec(s, ray, tMin, tMax, sqrt, rec);
      var still := Sphere.Hit(Snapshot(s, ray.time), ray, tMin, tMax, sqrt);
      moving.Some? == still.Some?
      && (moving.Some? ==>
            moving.value.t == still.value.t && moving.value.p == still.value.p
            && moving.value.normal == still.value.normal && moving.value.frontFace == still.value.frontFace)
  {
  }

  /** The imperative `hit`, writing the record fields in the order the renderer does. */
  method Hit(s: MovingSphere, ray: Ray, tMin: Bound, tMax: Bound, sqrt: real -> real, rec: HitRecord) returns (hit: bool)
    requires LengthSquared(ray.dir) != 0.0 && s.radius != 0.0 && s.time1 != s.time0
    modifies rec
    ensures hit == HitSpec(s, ray, tMin, tMax, sqrt, old(rec.Value())).Some?
    ensures rec.Value() == HitSpec(s, ray, tMin, tMax, sqrt, old(rec.Value())).GetOr(old(rec.Value()))
  {
    ghost var still := Snapshot(s, ray.time);
    var center := Center(s, ray.time);
    var oc := Sub(ray.orig, center);
    var a := LengthSquared(ray.dir);
    var halfB := Dot(oc, ray.dir);
    var c := LengthSquared(oc) - s.radius * s.radius;
    var discriminant := halfB * halfB - a * c;
    assert discriminant == Sphere.Discriminant(still, ray);
    if discriminant < 0.0 {
      assert Sphere.Root(still, ray, tMin, tMax, sqrt) == None;
      return false;
    }
    var sqrtD := sqrt(discriminant);
    var root := (-halfB - sqrtD) / a;
    if !Within(root, tMin, tMax) {
      root := (-halfB + sqrtD) / a;
      if !Within(root, tMin, tMax) {
        assert Sphere.Root(still, ray, tMin, tMax, sqrt) == None;
        return false;
      }
    }
    assert Sphere.Root(still, ray, tMin, tMax, sqrt) == Some(root);
    var p := At(ray, root);
    var outward := Scale(Sub(p, center), 1.0 / s.radius);
    rec.t := root;
    rec.p := p;
    rec.SetFaceNormal(ray, outward);
    rec.material := Some(s.material);
    return true;
  }
}
