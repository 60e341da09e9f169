/**
 * The scene graph: every kind of object a ray can meet, its bounding box,
 * and the `hit` query with the closest-hit contract shared by all of them.
 *
 * A query takes the closed parameter interval `[tMin, tMax]` and the
 * caller's record; a hit returns the record as the object leaves it. Random
 * draws are looked up by `path`, the position of the drawing object in the
 * traversal, so that one query sees one draw per medium it meets.
 */
module Hittable {
  import opened Wrappers
  import opened Interval
  import opened Vec3
  import opened Ray
  import opened Aabb
  import opened HitRecord
  import Sphere
  import MovingSphere
  import Aarect
  import Medium
  import Slab = Aabb

  datatype Hittable =
    | SphereObj(sphere: Sphere.Sphere)
    | MovingObj(moving: MovingSphere.MovingSphere)
    | RectObj(rect: Aarect.Rect)
    | BoxObj(minimum: Vec3, maximum: Vec3, sides: seq<Hittable>)
    | ListObj(objects: seq<Hittable>)
    | MediumObj(boundary: Hittable, phase: Material, negInvDensity: real)
    | BvhObj(left: Hittable, right: Hittable, bbox: Aabb)

  /**
   * What a query needs from outside the model: a square root and, for every
   * traversal path, the natural logarithm of a uniform draw.
   */
  datatype Env = Env(sqrt: real -> real, logDraw: seq<nat> -> real)

  /** A square root, and logarithms of draws in [0, 1), which are never positive (a draw of 0, whose logarithm is minus infinity and gives no hit, is not modelled). */
  ghost predicate Sane(env: Env) {
    IsSqrt(env.sqrt) && forall path :: env.logDraw(path) <= 0.0
  }

  /**
   * The divisions a query performs are by non-zero values: spheres need a
   * non-degenerate direction and radius (and a moving sphere a time span),
   * rectangles a ray that crosses their plane and non-empty extents, media
   * a ray of non-zero length.
   */
  predicate Defined(h: Hittable, ray: Ray)
    decreases h
  {
    match h
    case SphereObj(s) => LengthSquared(ray.dir) != 0.0 && s.radius != 0.0
    case MovingObj(m) => LengthSquared(ray.dir) != 0.0 && m.radius != 0.0 && m.time1 != m.time0
    case RectObj(r) => Aarect.Crosses(r, ray) && r.a1 != r.a0 && r.b1 != r.b0
    case BoxObj(_, _, sides) => forall i :: 0 <= i < |sides| ==> Defined(sides[i], ray)
    case ListObj(objects) => forall i :: 0 <= i < |objects| ==> Defined(objects[i], ray)
    case MediumObj(boundary, _, _) => Defined(boundary, ray) && LengthSquared(ray.dir) != 0.0
    case BvhObj(left, right, _) => Defined(left, ray) && Defined(right, ray)
  }

  /** Every moving sphere has a time span, so its centre is defined at all times. */
  predicate Timed(h: Hittable)
    decreases h
  {
    match h
    case SphereObj(_) => true
    case MovingObj(m) => m.time1 != m.time0
    case RectObj(_) => true
    case BoxObj(_, _, sides) => forall i :: 0 <= i < |sides| ==> Timed(sides[i])
    case ListObj(objects) => forall i :: 0 <= i < |objects| ==> Timed(objects[i])
    case MediumObj(boundary, _, _) => Timed(boundary)
    case BvhObj(left, right, _) => Timed(left) && Timed(right)
  }

  /** Every medium has a positive density, so its free-flight distance is not negative. */
  predicate Dense(h: Hittable)
    decreases h
  {
    match h
    case BoxObj(_, _, sides) => forall i :: 0 <= i < |sides| ==> Dense(sides[i])
    case ListObj(objects) => forall i :: 0 <= i < |objects| ==> Dense(objects[i])
    case MediumObj(boundary, _, negInvDensity) => Dense(boundary) && negInvDensity <= 0.0
    case BvhObj(left, right, _) => Dense(left) && Dense(right)
    case _ => true
  }

  /**
   * `bounding_box(time0, time1)`: spheres and lists have none; a box and a
   * BVH node report their stored box whatever the times; a medium reports
   * its boundary's.
   */
  function BoundingBox(h: Hittable, time0: real, time1: real): (r: Option<Aabb>)
    requires Timed(h)
    decreases h
    ensures h.BoxObj? ==> r == Some(Aabb(h.minimum, h.maximum))
    ensures h.BvhObj? ==> r == Some(h.bbox)
    ensures h.RectObj? || h.MovingObj? || h.BoxObj? || h.BvhObj? ==> r.Some?
    ensures h.SphereObj? || h.ListObj? ==> r == None
  {
    match h
    case SphereObj(_) => None
    case MovingObj(m) => MovingSphere.BoundingBox(m, time0, time1)
    case RectObj(r) => Aarect.BoundingBox(r, time0, time1)
    case BoxObj(minimum, maximum, _) => Some(Aabb(minimum, maximum))
    case ListObj(_) => None
    case MediumObj(boundary, _, _) => BoundingBox(boundary, time0, time1)
    case BvhObj(_, _, bbox) => Some(bbox)
  }

  /** A medium is bounded exactly as its boundary is. */
  lemma MediumBoxIsBoundaryBox(h: Hittable, time0: real, time1: real)
    requires h.MediumObj? && Timed(h)
    ensures BoundingBox(h, time0, time1) == BoundingBox(h.boundary, time0, time1)
  {
  }

  /** The children a list or a box scans, in order. */
  function Children(h: Hittable): seq<Hittable>
    requires h.BoxObj? || h.ListObj?
  {
    if h.BoxObj? then h.sides else h.objects
  }

  lemma ChildDefined(h: Hittable, ray: Ray, i: nat)
    requires (h.BoxObj? || h.ListObj?) && Defined(h, ray) && i < |Children(h)|
    ensures Defined(Children(h)[i], ray)
  {
  }

  lemma LengthPositive(v: Vec3, sqrt: real -> real)
    requires IsSqrt(sqrt) && LengthSquared(v) != 0.0
    ensures Length(v, sqrt) > 0.0
  {
    var l := Length(v, sqrt);
    assert 0.0 <= l && l * l == LengthSquared(v);
  }

  /**
   * `hit(ray, tMin, tMax, rec)`: the record as the object leaves it when it
   * reports a hit; `None` when it reports none (the caller's record is then
   * as it was).
   */
  function HitSpec(h: Hittable, ray: Ray, tMin: Bound, tMax: Bound, rec: HitValue, env: Env, path: seq<nat>): Option<HitValue>
    requires Defined(h, ray) && IsSqrt(env.sqrt)
    decreases h, 1
  {
    match h
    case SphereObj(s) => Sphere.Hit(s, ray, tMin, tMax, env.sqrt)
    case MovingObj(m) => MovingSphere.HitSpec(m, ray, tMin, tMax, env.sqrt, rec)
    case RectObj(r) => Aarect.HitSpec(r, ray, tMin, tMax)
    case BoxObj(_, _, sides) => ListScan(h, |sides|, ray, tMin, tMax, rec, env, path)
    case ListObj(objects) => ListScan(h, |objects|, ray, tMin, tMax, rec, env, path)
    case MediumObj(_, _, _) => MediumHit(h, ray, tMin, tMax, rec, env, path)
    case BvhObj(_, _, _) => BvhHit(h, ray, tMin, tMax, rec, env, path)
  }

  /**
   * The list scan after its first `n` children: each child is queried up to
   * the closest hit so far, on the record the previous hit left, and the
   * last child to hit wins.
   */
  function ListScan(h: Hittable, n: nat, ray: Ray, tMin: Bound, tMax: Bound, rec: HitValue, env: Env, path: seq<nat>): Option<HitValue>
    requires (h.BoxObj? || h.ListObj?) && n <= |Children(h)|
    requires Defined(h, ray) && IsSqrt(env.sqrt)
    decreases h, 0, n
  {
    if n == 0 then None
    else
      var prev := ListScan(h, n - 1, ray, tMin, tMax, rec, env, path);
      var closest := if prev.Some? then Fin(prev.value.t) else tMax;
      ChildDefined(h, ray, n - 1);
      var cur := HitSpec(Children(h)[n - 1], ray, tMin, closest, prev.GetOr(rec), env, path + [n - 1]);
      if cur.Some? then cur else prev
  }

  /** The scattering record a medium writes at parameter `t`; `u` and `v` are kept. */
  function Scatter(h: Hittable, ray: Ray, t: real, rec: HitValue): HitValue
    requires h.MediumObj?
  {
    rec.(t := t, p := At(ray, t), normal := Vec3(1.0, 0.0, 0.0), frontFace := true, material := Some(h.phase))
  }

  /**
   * A constant medium: the boundary is hit twice (from minus infinity, then
   * just past the first hit), on fresh records, and the free-flight sample
   * decides whether the ray scatters inside.
   */
  function MediumHit(h: Hittable, ray: Ray, tMin: Bound, tMax: Bound, rec: HitValue, env: Env, path: seq<nat>): Option<HitValue>
    requires h.MediumObj? && Defined(h, ray) && IsSqrt(env.sqrt)
    decreases h, 0
  {
    match HitSpec(h.boundary, ray, NegInf, PosInf, EmptyValue(), env, path + [0])
    case None => None
    case Some(first) =>
      match HitSpec(h.boundary, ray, Fin(first.t + 0.0001), PosInf, EmptyValue(), env, path + [1])
      case None => None
      case Some(second) =>
        LengthPositive(ray.dir, env.sqrt);
        match Medium.Sample(first.t, second.t, tMin, tMax, h.negInvDensity, env.logDraw(path), Length(ray.dir, env.sqrt))
        case None => None
        case Some(t) => Some(Scatter(h, ray, t, rec))
  }

  /**
   * A BVH node: nothing unless the ray passes through its box; otherwise the
   * left child, then the right child up to the left child's hit, on the
   * record the left child left; the right child wins when it hits.
   */
  function BvhHit(h: Hittable, ray: Ray, tMin: Bound, tMax: Bound, rec: HitValue, env: Env, path: seq<nat>): Option<HitValue>
    requires h.BvhObj? && Defined(h, ray) && IsSqrt(env.sqrt)
    decreases h, 0
  {
    if !Hits(h.bbox, ray, tMin, tMax) then None
    else
      var left := HitSpec(h.left, ray, tMin, tMax, rec, env, path + [0]);
      var rightMax := if left.Some? then Fin(left.value.t) else tMax;
      var right := HitSpec(h.right, ray, tMin, rightMax, left.GetOr(rec), env, path + [1]);
      if right.Some? then right else left
  }

  /** With children that respect their bounds, a hit lies in the query interval. */
  lemma {:induction false} HitWithin(h: Hittable, ray: Ray, tMin: Bound, tMax: Bound, rec: HitValue, env: Env, path: seq<nat>)
    requires Defined(h, ray) && Sane(env) && Dense(h)
    decreases h, 1
    ensures var r := HitSpec(h, ray, tMin, tMax, rec, env, path);
      r.Some? ==> Within(r.value.t, tMin, tMax)
  {
    match h
    case SphereObj(_) =>
    case MovingObj(_) =>
    case RectObj(r) => Aarect.HitCases(r, ray, tMin, tMax);
    case BoxObj(_, _, sides) => ScanWithin(h, |sides|, ray, tMin, tMax, rec, env, path);
    case ListObj(objects) => ScanWithin(h, |objects|, ray, tMin, tMax, rec, env, path);
    case MediumObj(_, _, _) => MediumWithin(h, ray, tMin, tMax, rec, env, path);
    case BvhObj(left, right, _) =>
      if Hits(h.bbox, ray, tMin, tMax) {
        var l := HitSpec(left, ray, tMin, tMax, rec, env, path + [0]);
        var rightMax := if l.Some? then Fin(l.value.t) else tMax;
        HitWithin(left, ray, tMin, tMax, rec, env, path + [0]);
        HitWithin(right, ray, tMin, rightMax, l.GetOr(rec), env, path + [1]);
      }
  }

  /** A medium scatters inside the query interval, after its entry, at no negative parameter. */
  lemma MediumWithin(h: Hittable, ray: Ray, tMin: Bound, tMax: Bound, rec: HitValue, env: Env, path: seq<nat>)
    requires h.MediumObj? && Defined(h, ray) && Sane(env) && h.negInvDensity <= 0.0
    ensures var r := MediumHit(h, ray, tMin, tMax, rec, env, path);
      r.Some? ==> Within(r.value.t, tMin, tMax) && 0.0 <= r.value.t
  {
    var first := HitSpec(h.boundary, ray, NegInf, PosInf, EmptyValue(), env, path + [0]);
    if first.Some? {
      var second := HitSpec(h.boundary, ray, Fin(first.value.t + 0.0001), PosInf, EmptyValue(), env, path + [1]);
      if second.Some? {
        LengthPositive(ray.dir, env.sqrt);
        var len := Length(ray.dir, env.sqrt);
        if Medium.Sample(first.value.t, second.value.t, tMin, tMax, h.negInvDensity, env.logDraw(path), len).Some? {
          Medium.SampleInSpan(first.value.t, second.value.t, tMin, tMax, h.negInvDensity, env.logDraw(path), len);
        }
      }
    }
  }

  /** The list scan keeps every hit in the query interval. */
  lemma {:induction false} ScanWithin(h: Hittable, n: nat, ray: Ray, tMin: Bound, tMax: Bound, rec: HitValue, env: Env, path: seq<nat>)
    requires (h.BoxObj? || h.ListObj?) && n <= |Children(h)|
    requires Defined(h, ray) && Sane(env) && Dense(h)
    decreases h, 0, n
    ensures var r := ListScan(h, n, ray, tMin, tMax, rec, env, path);
      r.Some? ==> Within(r.value.t, tMin, tMax)
  {
    if n > 0 {
      var prev := ListScan(h, n - 1, ray, tMin, tMax, rec, env, path);
      var closest := if prev.Some? then Fin(prev.value.t) else tMax;
      ScanWithin(h, n - 1, ray, tMin, tMax, rec, env, path);
      ChildDefined(h, ray, n - 1);
      assert Dense(Children(h)[n - 1]);
      HitWithin(Children(h)[n - 1], ray, tMin, closest, prev.GetOr(rec), env, path + [n - 1]);
    }
  }

  /**
   * The scan reports no hit exactly when no child, queried on the whole
   * interval with the caller's record, reports one.
   */
  lemma ListScanNoneIff(h: Hittable, n: nat, ray: Ray, tMin: Bound, tMax: Bound, rec: HitValue, env: Env, path: seq<nat>)
    requires (h.BoxObj? || h.ListObj?) && n <= |Children(h)|
    requires Defined(h, ray) && IsSqrt(env.sqrt)
    ensures ListScan(h, n, ray, tMin, tMax, rec, env, path) == None
      <==> forall i :: 0 <= i < n ==> HitSpec(Children(h)[i], ray, tMin, tMax, rec, env, path + [i]) == None
  {
    ListScanNoneMeansMisses(h, n, ray, tMin, tMax, rec, env, path);
    ListScanMissesMeanNone(h, n, ray, tMin, tMax, rec, env, path);
  }

  lemma {:induction false} ListScanNoneMeansMisses(h: Hittable, n: nat, ray: Ray, tMin: Bound, tMax: Bound, rec: HitValue, env: Env, path: seq<nat>)
    requires (h.BoxObj? || h.ListObj?) && n <= |Children(h)|
    requires Defined(h, ray) && IsSqrt(env.sqrt)
    ensures ListScan(h, n, ray, tMin, tMax, rec, env, path) == None ==>
      forall i :: 0 <= i < n ==> HitSpec(Children(h)[i], ray, tMin, tMax, rec, env, path + [i]) == None
  {
    if n > 0 && ListScan(h, n, ray, tMin, tMax, rec, env, path) == None {
      ListScanStep(h, n, ray, tMin, tMax, rec, env, path);
      ListScanNoneMeansMisses(h, n - 1, ray, tMin, tMax, rec, env, path);
      var last := HitSpec(Children(h)[n - 1], ray, tMin, tMax, rec, env, path + [n - 1]);
      assert last == None;
      forall i | 0 <= i < n
        ensures HitSpec(Children(h)[i], ray, tMin, tMax, rec, env, path + [i]) == None
      {
        if i == n - 1 {
          assert HitSpec(Children(h)[i], ray, tMin, tMax, rec, env, path + [i]) == last;
        }
      }
    }
  }

  lemma {:induction false} ListScanMissesMeanNone(h: Hittable, n: nat, ray: Ray, tMin: Bound, tMax: Bound, rec: HitValue, env: Env, path: seq<nat>)
    requires (h.BoxObj? || h.ListObj?) && n <= |Children(h)|
    requires Defined(h, ray) && IsSqrt(env.sqrt)
    ensures (forall i :: 0 <= i < n ==> HitSpec(Children(h)[i], ray, tMin, tMax, rec, env, path + [i]) == None) ==>
      ListScan(h, n, ray, tMin, tMax, rec, env, path) == None
  {
    if n > 0 {
      ListScanMissesMeanNone(h, n - 1, ray, tMin, tMax, rec, env, path);
      ListScanStep(h, n, ray, tMin, tMax, rec, env, path);
    }
  }

  /** After a scan that found nothing, the next child is queried on the original interval and record. */
  lemma ListScanStep(h: Hittable, n: nat, ray: Ray, tMin: Bound, tMax: Bound, rec: HitValue, env: Env, path: seq<nat>)
    requires (h.BoxObj? || h.ListObj?) && 0 < n <= |Children(h)|
    requires Defined(h, ray) && IsSqrt(env.sqrt)
    ensures ListScan(h, n - 1, ray, tMin, tMax, rec, env, path).None? ==>
        ListScan(h, n, ray, tMin, tMax, rec, env, path) == HitSpec(Children(h)[n - 1], ray, tMin, tMax, rec, env, path + [n - 1])
    ensures ListScan(h, n - 1, ray, tMin, tMax, rec, env, path).Some? ==> ListScan(h, n, ray, tMin, tMax, rec, env, path).Some?
  {
  }

  /**
   * A longer scan never loses a hit and never moves it further: once the
   * first `m` children have hit, the scan of `n >= m` children hits at a
   * parameter no greater.
   */
  lemma {:induction false} ListScanCloser(h: Hittable, m: nat, n: nat, ray: Ray, tMin: Bound, tMax: Bound, rec: HitValue, env: Env, path: seq<nat>)
    requires (h.BoxObj? || h.ListObj?) && m <= n <= |Children(h)|
    requires Defined(h, ray) && Sane(env) && Dense(h)
    requires ListScan(h, m, ray, tMin, tMax, rec, env, path).Some?
    ensures ListScan(h, n, ray, tMin, tMax, rec, env, path).Some?
    ensures ListScan(h, n, ray, tMin, tMax, rec, env, path).value.t <= ListScan(h, m, ray, tMin, tMax, rec, env, path).value.t
  {
    if m < n {
      ListScanCloser(h, m, n - 1, ray, tMin, tMax, rec, env, path);
      var prev := ListScan(h, n - 1, ray, tMin, tMax, rec, env, path);
      ChildDefined(h, ray, n - 1);
      assert Dense(Children(h)[n - 1]);
      HitWithin(Children(h)[n - 1], ray, tMin, Fin(prev.value.t), prev.value, env, path + [n - 1]);
    }
  }

  /**
   * A BVH node misses when its box does; otherwise it hits exactly when a
   * child does, the right child searched only up to the left child's hit,
   * so the node's hit is never further than the left child's.
   */
  lemma BvhHitCases(h: Hittable, ray: Ray, tMin: Bound, tMax: Bound, rec: HitValue, env: Env, path: seq<nat>)
    requires h.BvhObj? && Defined(h, ray) && Sane(env) && Dense(h)
    ensures !Hits(h.bbox, ray, tMin, tMax) ==> BvhHit(h, ray, tMin, tMax, rec, env, path) == None
    ensures var left := HitSpec(h.left, ray, tMin, tMax, rec, env, path + [0]);
      var right := HitSpec(h.right, ray, tMin, if left.Some? then Fin(left.value.t) else tMax, left.GetOr(rec), env, path + [1]);
      var r := BvhHit(h, ray, tMin, tMax, rec, env, path);
      Hits(h.bbox, ray, tMin, tMax) ==>
        (r.Some? <==> left.Some? || right.Some?)
        && (right.Some? ==> r == right)
        && (right.None? ==> r == left)
        && (left.Some? ==> r.value.t <= left.value.t)
  {
    var left := HitSpec(h.left, ray, tMin, tMax, rec, env, path + [0]);
    if left.Some? {
      HitWithin(h.right, ray, tMin, Fin(left.value.t), left.value, env, path + [1]);
    }
  }

  /**
   * The imperative `hit`: the record is left unchanged on a miss and holds
   * the specified hit otherwise.
   */
  method Hit(h: Hittable, ray: Ray, tMin: Bound, tMax: Bound, rec: HitRecord, env: Env, path: seq<nat>) returns (hit: bool)
    requires Defined(h, ray) && IsSqrt(env.sqrt)
    modifies rec
    decreases h, 1
    ensures hit == HitSpec(h, ray, tMin, tMax, old(rec.Value()), env, path).Some?
    ensures rec.Value() == HitSpec(h, ray, tMin, tMax, old(rec.Value()), env, path).GetOr(old(rec.Value()))
  {
    match h
    case SphereObj(s) =>
      var r := Sphere.Hit(s, ray, tMin, tMax, env.sqrt);
      if r.Some? {
        rec.Store(r.value);
      }
      hit := r.Some?;
    case MovingObj(m) =>
      hit := MovingSphere.Hit(m, ray, tMin, tMax, env.sqrt, rec);
    case RectObj(r) =>
      hit := Aarect.Hit(r, ray, tMin, tMax, rec);
    case BoxObj(_, _, _) =>
      hit := ScanList(h, ray, tMin, tMax, rec, env, path);
    case ListObj(_) =>
      hit := ScanList(h, ray, tMin, tMax, rec, env, path);
    case MediumObj(_, _, _) =>
      hit := MediumHitInPlace(h, ray, tMin, tMax, rec, env, path);
    case BvhObj(_, _, _) =>
      hit := BvhHitInPlace(h, ray, tMin, tMax, rec, env, path);
  }

  /** The closest-so-far loop over the children of a list or a box. */
  method ScanList(h: Hittable, ray: Ray, tMin: Bound, tMax: Bound, rec: HitRecord, env: Env, path: seq<nat>) returns (hit: bool)
    requires (h.BoxObj? || h.ListObj?) && Defined(h, ray) && IsSqrt(env.sqrt)
    modifies rec
    decreases h, 0
    ensures hit == ListScan(h, |Children(h)|, ray, tMin, tMax, old(rec.Value()), env, path).Some?
    ensures rec.Value() == ListScan(h, |Children(h)|, ray, tMin, tMax, old(rec.Value()), env, path).GetOr(old(rec.Value()))
  {
    ghost var start := rec.Value();
    var objects := Children(h);
    var closest := tMax;
    hit := false;
    for i := 0 to |objects|
      invariant hit == ListScan(h, i, ray, tMin, tMax, start, env, path).Some?
      invariant rec.Value() == ListScan(h, i, ray, tMin, tMax, start, env, path).GetOr(start)
      invariant closest == if hit then Fin(rec.t) else tMax
    {
      ChildDefined(h, ray, i);
      var objectHit := Hit(objects[i], ray, tMin, closest, rec, env, path + [i]);
      if objectHit {
        closest := Fin(rec.t);
        hit := true;
      }
    }
  }

  /** A medium's `hit`: two boundary queries on fresh records, then the free-flight step. */
  method MediumHitInPlace(h: Hittable, ray: Ray, tMin: Bound, tMax: Bound, rec: HitRecord, env: Env, path: seq<nat>) returns (hit: bool)
    requires h.MediumObj? && Defined(h, ray) && IsSqrt(env.sqrt)
    modifies rec
    decreases h, 0
    ensures hit == MediumHit(h, ray, tMin, tMax, old(rec.Value()), env, path).Some?
    ensures rec.Value() == MediumHit(h, ray, tMin, tMax, old(rec.Value()), env, path).GetOr(old(rec.Value()))
  {
    var rec1 := new HitRecord.Empty();
    var rec2 := new HitRecord.Empty();
    var hit1 := Hit(h.boundary, ray, NegInf, PosInf, rec1, env, path + [0]);
    if !hit1 {
      return false;
    }
    var hit2 := Hit(h.boundary, ray, Fin(rec1.t + 0.0001), PosInf, rec2, env, path + [1]);
    if !hit2 {
      return false;
    }
    LengthPositive(ray.dir, env.sqrt);
    var rayLength := Length(ray.dir, env.sqrt);
    var t := Medium.FreeFlight(rec1.t, rec2.t, tMin, tMax, h.negInvDensity, env.logDraw(path), rayLength);
    if t.None? {
      return false;
    }
    rec.t := t.value;
    rec.p := At(ray, rec.t);
    rec.normal := Vec3(1.0, 0.0, 0.0);
    rec.frontFace := true;
    rec.material := Some(h.phase);
    return true;
  }

  /** A BVH node's `hit`: the box test, then the left child, then the right child up to the left hit. */
  method BvhHitInPlace(h: Hittable, ray: Ray, tMin: Bound, tMax: Bound, rec: HitRecord, env: Env, path: seq<nat>) returns (hit: bool)
    requires h.BvhObj? && Defined(h, ray) && IsSqrt(env.sqrt)
    modifies rec
    decreases h, 0
    ensures hit == BvhHit(h, ray, tMin, tMax, old(rec.Value()), env, path).Some?
    ensures rec.Value() == BvhHit(h, ray, tMin, tMax, old(rec.Value()), env, path).GetOr(old(rec.Value()))
  {
    var boxHit := Slab.Hit(h.bbox, ray, tMin, tMax);
    if !boxHit {
      return false;
    }
    var hitLeft := Hit(h.left, ray, tMin, tMax, rec, env, path + [0]);
    var rightMax := if hitLeft then Fin(rec.t) else tMax;
    var hitRight := Hit(h.right, ray, tMin, rightMax, rec, env, path + [1]);
    hit := hitLeft || hitRight;
  }
}
