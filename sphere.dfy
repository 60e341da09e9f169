/** Ray/sphere intersection by the half-b form of the quadratic formula. */
module Sphere {
  import opened Wrappers
  import opened Interval
  import opened Vec3
  import opened Ray
  import opened HitRecord

  datatype Sphere = Sphere(center: Vec3, radius: real)

  /** The smaller and the larger root of `a t^2 + 2 halfB t + c` given `sqrtD`, the root of the discriminant. */
  function NearRoot(halfB: real, a: real, sqrtD: real): real
    requires a != 0.0
  {
    (-halfB - sqrtD) / a
  }

  function FarRoot(halfB: real, a: real, sqrtD: real): real
    requires a != 0.0
  {
    (-halfB + sqrtD) / a
  }

  /**
   * Root selection: the smaller root when it is in `[tMin, tMax]`, else the
   * larger one when that is, else none.
   */
  function SelectRoot(halfB: real, a: real, sqrtD: real, tMin: Bound, tMax: Bound): (r: Option<real>)
    requires a != 0.0
    ensures r.Some? <==> Within(NearRoot(halfB, a, sqrtD), tMin, tMax) || Within(FarRoot(halfB, a, sqrtD), tMin, tMax)
    ensures r.Some? ==> Within(r.value, tMin, tMax)
    ensures r.Some? ==> r.value == NearRoot(halfB, a, sqrtD) || r.value == FarRoot(halfB, a, sqrtD)
    ensures Within(NearRoot(halfB, a, sqrtD), tMin, tMax) ==> r == Some(NearRoot(halfB, a, sqrtD))
  {
    var near := NearRoot(halfB, a, sqrtD);
    if Within(near, tMin, tMax) then Some(near)
    else
      var far := FarRoot(halfB, a, sqrtD);
      if Within(far, tMin, tMax) then Some(far) else None
  }

  lemma NearNotAfterFar(halfB: real, a: real, sqrtD: real)
    requires 0.0 < a && 0.0 <= sqrtD
    ensures NearRoot(halfB, a, sqrtD) <= FarRoot(halfB, a, sqrtD)
  {
    var inv := 1.0 / a;
    assert 0.0 < inv by {
      assert inv * a == 1.0;
    }
    assert NearRoot(halfB, a, sqrtD) == (-halfB - sqrtD) * inv;
    assert FarRoot(halfB, a, sqrtD) == (-halfB + sqrtD) * inv;
    assert (-halfB + sqrtD) * inv - (-halfB - sqrtD) * inv == (2.0 * sqrtD) * inv;
  }

  /**
   * With a positive leading coefficient and a non-negative discriminant root,
   * the selected root is the nearest root in range.
   */
  lemma SelectsNearestRoot(halfB: real, a: real, sqrtD: real, tMin: Bound, tMax: Bound, root: real)
    requires 0.0 < a && 0.0 <= sqrtD
    requires root == NearRoot(halfB, a, sqrtD) || root == FarRoot(halfB, a, sqrtD)
    requires Within(root, tMin, tMax)
    ensures SelectRoot(halfB, a, sqrtD, tMin, tMax).Some?
    ensures SelectRoot(halfB, a, sqrtD, tMin, tMax).value <= root
  {
    NearNotAfterFar(halfB, a, sqrtD);
  }

  /** The discriminant (over four) of the ray/sphere quadratic. */
  function Discriminant(s: Sphere, ray: Ray): real {
    var oc := Sub(ray.orig, s.center);
    var halfB := Dot(oc, ray.dir);
    halfB * halfB - LengthSquared(ray.dir) * (LengthSquared(oc) - s.radius * s.radius)
  }

  /** The first half of `Sphere::hit`: no root for a negative discriminant, else the selected root. */
  function Root(s: Sphere, ray: Ray, tMin: Bound, tMax: Bound, sqrt: real -> real): (r: Option<real>)
    requires LengthSquared(ray.dir) != 0.0
    ensures r.Some? ==> Within(r.value, tMin, tMax)
  {
    if Discriminant(s, ray) < 0.0 then None
    else SelectRoot(Dot(Sub(ray.orig, s.center), ray.dir), LengthSquared(ray.dir), sqrt(Discriminant(s, ray)), tMin, tMax)
  }

  /**
   * `Sphere::hit`: no hit when the discriminant is negative or both roots
   * are outside the interval; otherwise a fresh record at the selected root
   * with the normal `(p - center) / radius` oriented against the ray.
   */
  function Hit(s: Sphere, ray: Ray, tMin: Bound, tMax: Bound, sqrt: real -> real): (r: Option<HitValue>)
    requires LengthSquared(ray.dir) != 0.0 && s.radius != 0.0
    ensures r.Some? ==> Within(r.value.t, tMin, tMax)
    ensures r.Some? ==> r.value.p == At(ray, r.value.t)
    ensures r.Some? ==> (r.value.frontFace, r.value.normal) == FaceNormal(ray.dir, Scale(Sub(r.value.p, s.center), 1.0 / s.radius))
    ensures r.Some? ==> r.value.material == None
  {
    match Root(s, ray, tMin, tMax, sqrt)
    case None => None
    case Some(root) =>
      var p := At(ray, root);
      Some(NewRecord(p, root, ray, Scale(Sub(p, s.center), 1.0 / s.radius)))
  }

  lemma NegativeDiscriminantMisses(s: Sphere, ray: Ray, tMin: Bound, tMax: Bound, sqrt: real -> real)
    requires LengthSquared(ray.dir) != 0.0 && s.radius != 0.0
    requires Discriminant(s, ray) < 0.0
    ensures Hit(s, ray, tMin, tMax, sqrt) == None
  {
  }

  /** Under a square root that is non-negative, the sphere reports the nearest in-range root. */
  lemma HitIsNearestRoot(s: Sphere, ray: Ray, tMin: Bound, tMax: Bound, sqrt: real -> real, root: real)
    requires LengthSquared(ray.dir) != 0.0 && s.radius != 0.0
    requires IsSqrt(sqrt) && 0.0 <= Discriminant(s, ray)
    requires var halfB := Dot(Sub(ray.orig, s.center), ray.dir);
      var a := LengthSquared(ray.dir);
      root == NearRoot(halfB, a, sqrt(Discriminant(s, ray))) || root == FarRoot(halfB, a, sqrt(Discriminant(s, ray)))
    requires Within(root, tMin, tMax)
    ensures Hit(s, ray, tMin, tMax, sqrt).Some?
    ensures Hit(s, ray, tMin, tMax, sqrt).value.t <= root
  {
    var halfB := Dot(Sub(ray.orig, s.center), ray.dir);
    var a := LengthSquared(ray.dir);
    SelectsNearestRoot(halfB, a, sqrt(Discriminant(s, ray)), tMin, tMax, root);
  }

  /**
   * A sphere of radius 0.5 centred at (0, 0, -1), seen from the origin along
   * -z, is met at t = 0.5 on its front face at (0, 0, -0.5).
   */
  lemma HeadOnHit(sqrt: real -> real)
    requires sqrt(0.25) == 0.5
    ensures var r := Hit(Sphere(Vec3(0.0, 0.0, -1.0), 0.5), New(Origin, Vec3(0.0, 0.0, -1.0)), Fin(0.0), PosInf, sqrt);
      r.Some? && r.value.t == 0.5 && r.value.p == Vec3(0.0, 0.0, -0.5)
      && r.value.frontFace && r.value.normal == Vec3(0.0, 0.0, 1.0)
  {
    var s := Sphere(Vec3(0.0, 0.0, -1.0), 0.5);
    var ray := New(Origin, Vec3(0.0, 0.0, -1.0));
    var oc := Sub(ray.orig, s.center);
    assert oc == Vec3(0.0, 0.0, 1.0);
    assert LengthSquared(ray.dir) == 1.0;
    assert Dot(oc, ray.dir) == -1.0;
    assert LengthSquared(oc) == 1.0;
    assert Discriminant(s, ray) == 0.25;
    assert SelectRoot(-1.0, 1.0, 0.5, Fin(0.0), PosInf) == Some(0.5);
    assert At(ray, 0.5) == Vec3(0.0, 0.0, -0.5);
    assert Scale(Sub(Vec3(0.0, 0.0, -0.5), s.center), 1.0 / 0.5) == Vec3(0.0, 0.0, 1.0);
  }
}
