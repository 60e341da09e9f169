/**
 * Axis-aligned bounding boxes: a minimum and a maximum corner, the union of
 * two boxes, and the ray/slab test.
 */
module Aabb {
  import opened Vec3
  import opened Ray
  import opened Interval

  /** `AABB::new(minimum, maximum)`; `min()`/`max()` are the two fields. */
  datatype Aabb = Aabb(minimum: Vec3, maximum: Vec3)

  /** Coordinate `i` of `p` lies between the box's corners. */
  predicate InsideOn(p: Vec3, b: Aabb, i: nat)
    requires i < 3
  {
    b.minimum.Get(i) <= p.Get(i) <= b.maximum.Get(i)
  }

  predicate Inside(p: Vec3, b: Aabb) {
    InsideOn(p, b, 0) && InsideOn(p, b, 1) && InsideOn(p, b, 2)
  }

  /** `outer` reaches at least as far as `inner` on every axis. */
  predicate Contains(outer: Aabb, inner: Aabb) {
    forall i :: 0 <= i < 3 ==>
      outer.minimum.Get(i) <= inner.minimum.Get(i) && inner.maximum.Get(i) <= outer.maximum.Get(i)
  }

  /** `AABB::empty`: the degenerate box at the origin, which holds the origin and no other point. */
  function Empty(): (b: Aabb)
    ensures forall p :: Inside(p, b) <==> p == Origin
  {
    Aabb(Origin, Origin)
  }

  /** `f64::min` and `f64::max` (NaN aside). */
  function Min(x: real, y: real): real { if x <= y then x else y }
  function Max(x: real, y: real): real { if x <= y then y else x }

  /** `surrounding_box`: the smallest box that contains both operands. */
  function SurroundingBox(a: Aabb, b: Aabb): (r: Aabb)
    ensures Contains(r, a) && Contains(r, b)
    ensures forall c :: Contains(c, a) && Contains(c, b) ==> Contains(c, r)
  {
    var small := Vec3(Min(a.minimum.X(), b.minimum.X()),
                      Min(a.minimum.Y(), b.minimum.Y()),
                      Min(a.minimum.Z(), b.minimum.Z()));
    var big := Vec3(Max(a.maximum.X(), b.maximum.X()),
                    Max(a.maximum.Y(), b.maximum.Y()),
                    Max(a.maximum.Z(), b.maximum.Z()));
    Aabb(small, big)
  }

  lemma SurroundingCommutes(a: Aabb, b: Aabb)
    ensures SurroundingBox(a, b) == SurroundingBox(b, a)
  {
  }

  lemma SurroundingIdempotent(a: Aabb)
    ensures SurroundingBox(a, a) == a
  {
  }

  lemma ContainsTransitive(a: Aabb, b: Aabb, c: Aabb)
    requires Contains(a, b) && Contains(b, c)
    ensures Contains(a, c)
  {
  }

  /** A query interval `[lo, hi]` of ray parameters. */
  datatype Span = Span(lo: Bound, hi: Bound)

  /** The slab test rejects an interval with `hi <= lo`. */
  predicate Open(s: Span) {
    Lt(s.lo, s.hi)
  }

  /**
   * One iteration of the slab loop on axis `a`: intersect `s` with the
   * parameters at which the ray is between the two planes of that axis.
   * A zero direction component (taken as +0.0) makes `1.0 / d` infinite:
   * both plane distances are then infinities (or NaN, which every comparison
   * rejects), so `s` survives unchanged when the origin lies in the slab and
   * is emptied from the side the origin lies on otherwise.
   */
  function Clip(b: Aabb, ray: Ray, a: nat, s: Span): Span
    requires a < 3
  {
    var d := ray.dir.Get(a);
    var o := ray.orig.Get(a);
    if d == 0.0 then
      Span(if o < b.minimum.Get(a) then PosInf else s.lo,
           if b.maximum.Get(a) < o then NegInf else s.hi)
    else
      var near := Near(b.minimum.Get(a), b.maximum.Get(a), o, d);
      var far := Far(b.minimum.Get(a), b.maximum.Get(a), o, d);
      Span(if Lt(s.lo, Fin(near)) then Fin(near) else s.lo,
           if Lt(Fin(far), s.hi) then Fin(far) else s.hi)
  }

  /** The parameter at which a ray with origin `o` and direction `d` enters the slab `[lo, hi]`. */
  function Near(lo: real, hi: real, o: real, d: real): real
    requires d != 0.0
  {
    var invD := 1.0 / d;
    if invD < 0.0 then (hi - o) * invD else (lo - o) * invD
  }

  /** The parameter at which it leaves the slab. */
  function Far(lo: real, hi: real, o: real, d: real): real
    requires d != 0.0
  {
    var invD := 1.0 / d;
    if invD < 0.0 then (lo - o) * invD else (hi - o) * invD
  }

  /** Clipping never widens the interval. */
  lemma ClipNarrows(b: Aabb, ray: Ray, a: nat, s: Span)
    requires a < 3
    ensures Le(s.lo, Clip(b, ray, a, s).lo) && Le(Clip(b, ray, a, s).hi, s.hi)
  {
  }

  /**
   * `AABB::hit` as written: the `let t_min`/`let t_max` of the loop body
   * shadow the parameters for one iteration only, so every axis is clipped
   * against the caller's original interval and the result is true when each
   * axis overlaps it on its own.
   */
  predicate SlabsOverlap(b: Aabb, ray: Ray, tMin: Bound, tMax: Bound) {
    forall a :: 0 <= a < 3 ==> Open(Clip(b, ray, a, Span(tMin, tMax)))
  }

  /** The body of the slab loop for axis `a`, computed on the interval `[lo, hi]`. */
  method ClipAxis(b: Aabb, ray: Ray, a: nat, lo: Bound, hi: Bound) returns (lo': Bound, hi': Bound)
    requires a < 3
    ensures Span(lo', hi') == Clip(b, ray, a, Span(lo, hi))
  {
    var d := ray.dir.Get(a);
    var o := ray.orig.Get(a);
    if d == 0.0 {
      lo' := if o < b.minimum.Get(a) then PosInf else lo;
      hi' := if b.maximum.Get(a) < o then NegInf else hi;
    } else {
      var invD := 1.0 / d;
      var t0 := (b.minimum.Get(a) - o) * invD;
      var t1 := (b.maximum.Get(a) - o) * invD;
      if invD < 0.0 {
        t0, t1 := t1, t0;
      }
      assert t0 == Near(b.minimum.Get(a), b.maximum.Get(a), o, d);
      assert t1 == Far(b.minimum.Get(a), b.maximum.Get(a), o, d);
      lo' := if Lt(lo, Fin(t0)) then Fin(t0) else lo;
      hi' := if Lt(Fin(t1), hi) then Fin(t1) else hi;
      assert Span(lo', hi') == Clip(b, ray, a, Span(lo, hi));
    }
  }

  method HitAsWritten(b: Aabb, ray: Ray, tMin: Bound, tMax: Bound) returns (hit: bool)
    ensures hit == SlabsOverlap(b, ray, tMin, tMax)
  {
    for a := 0 to 3
      invariant forall k :: 0 <= k < a ==> Open(Clip(b, ray, k, Span(tMin, tMax)))
    {
      var lo, hi := ClipAxis(b, ray, a, tMin, tMax);
      if Le(hi, lo) {
        return false;
      }
    }
    return true;
  }

  /** The slab method as intended: the interval is narrowed axis after axis. */
  function RunningClip(b: Aabb, ray: Ray, n: nat, s: Span): Span
    requires n <= 3
  {
    if n == 0 then s else Clip(b, ray, n - 1, RunningClip(b, ray, n - 1, s))
  }

  predicate Hits(b: Aabb, ray: Ray, tMin: Bound, tMax: Bound) {
    Open(RunningClip(b, ray, 3, Span(tMin, tMax)))
  }

  /** Once the running interval is empty it stays empty. */
  lemma {:induction false} ClosedStaysClosed(b: Aabb, ray: Ray, m: nat, n: nat, s: Span)
    requires m <= n <= 3
    requires !Open(RunningClip(b, ray, m, s))
    ensures !Open(RunningClip(b, ray, n, s))
  {
    if m < n {
      ClosedStaysClosed(b, ray, m, n - 1, s);
      ClipNarrows(b, ray, n - 1, RunningClip(b, ray, n - 1, s));
    }
  }

  /** The slab test with the running interval, returning as soon as it is empty. */
  method Hit(b: Aabb, ray: Ray, tMin: Bound, tMax: Bound) returns (hit: bool)
    ensures hit == Hits(b, ray, tMin, tMax)
  {
    var lo, hi := tMin, tMax;
    for a := 0 to 3
      invariant Span(lo, hi) == RunningClip(b, ray, a, Span(tMin, tMax))
      invariant 0 < a ==> Open(Span(lo, hi))
    {
      lo, hi := ClipAxis(b, ray, a, lo, hi);
      if Le(hi, lo) {
        ClosedStaysClosed(b, ray, a + 1, 3, Span(tMin, tMax));
        return false;
      }
    }
    return true;
  }

  /** Clipping a narrower interval gives a narrower result. */
  lemma ClipMonotone(b: Aabb, ray: Ray, a: nat, outer: Span, inner: Span)
    requires a < 3
    requires Le(outer.lo, inner.lo) && Le(inner.hi, outer.hi)
    ensures Le(Clip(b, ray, a, outer).lo, Clip(b, ray, a, inner).lo)
    ensures Le(Clip(b, ray, a, inner).hi, Clip(b, ray, a, outer).hi)
  {
  }

  /** A non-empty interval inside another makes the other non-empty. */
  lemma OpenWidens(outer: Span, inner: Span)
    requires Le(outer.lo, inner.lo) && Le(inner.hi, outer.hi) && Open(inner)
    ensures Open(outer)
  {
  }

  /**
   * The running interval after all three axes lies inside the clip of the
   * original interval against any single axis.
   */
  lemma RunningInsideAxis(b: Aabb, ray: Ray, a: nat, s: Span)
    requires a < 3
    ensures Le(Clip(b, ray, a, s).lo, RunningClip(b, ray, 3, s).lo)
    ensures Le(RunningClip(b, ray, 3, s).hi, Clip(b, ray, a, s).hi)
  {
    RunningNarrows(b, ray, 0, a, s);
    ClipMonotone(b, ray, a, s, RunningClip(b, ray, a, s));
    RunningNarrows(b, ray, a + 1, 3, s);
  }

  /**
   * Every query the corrected test accepts, the test as written accepts too:
   * the two differ only on rays that overlap each slab at some parameter but
   * never all three at once.
   */
  lemma HitsImpliesSlabsOverlap(b: Aabb, ray: Ray, tMin: Bound, tMax: Bound)
    requires Hits(b, ray, tMin, tMax)
    ensures SlabsOverlap(b, ray, tMin, tMax)
  {
    var s := Span(tMin, tMax);
    forall a | 0 <= a < 3
      ensures Open(Clip(b, ray, a, s))
    {
      RunningInsideAxis(b, ray, a, s);
      OpenWidens(Clip(b, ray, a, s), RunningClip(b, ray, 3, s));
    }
  }

  /** An empty query interval is rejected by both versions of the test. */
  lemma EmptyQueryMisses(b: Aabb, ray: Ray, tMin: Bound, tMax: Bound)
    requires Le(tMax, tMin)
    ensures !SlabsOverlap(b, ray, tMin, tMax) && !Hits(b, ray, tMin, tMax)
  {
    ClipNarrows(b, ray, 0, Span(tMin, tMax));
    assert !Open(RunningClip(b, ray, 0, Span(tMin, tMax)));
    ClosedStaysClosed(b, ray, 0, 3, Span(tMin, tMax));
  }

  /** The unit cube of the `test_aabb_hit` unit test. */
  function UnitCube(): Aabb {
    Aabb(Origin, Vec3(1.0, 1.0, 1.0))
  }

  /**
   * `test_aabb_hit`: a ray along +y from (0.5, -0.5, 0.5) misses the unit
   * cube on `[0, 0.4]` and hits it on `[0, 10]`, under both versions.
   */
  lemma UnitTestHit()
    ensures var ray := New(Vec3(0.5, -0.5, 0.5), Vec3(0.0, 1.0, 0.0));
      && !Hits(UnitCube(), ray, Fin(0.0), Fin(0.4))
      && !SlabsOverlap(UnitCube(), ray, Fin(0.0), Fin(0.4))
      && Hits(UnitCube(), ray, Fin(0.0), Fin(10.0))
      && SlabsOverlap(UnitCube(), ray, Fin(0.0), Fin(10.0))
  {
    var ray := New(Vec3(0.5, -0.5, 0.5), Vec3(0.0, 1.0, 0.0));
    assert !Open(Clip(UnitCube(), ray, 1, Span(Fin(0.0), Fin(0.4))));
    ClosedStaysClosed(UnitCube(), ray, 2, 3, Span(Fin(0.0), Fin(0.4)));
  }

  /** A ray heading down and right whose x and y slabs are crossed at disjoint times. */
  function SkewRay(): Ray {
    New(Vec3(-1.0, 4.0, 0.5), Vec3(1.0, -1.0, 0.0))
  }

  /**
   * The as-written test reports a hit although no point of the ray lies in
   * the box: the ray is inside the x slab for t in [1, 2] and inside the y
   * slab for t in [3, 4], each of which overlaps the query [0, 10].
   */
  lemma AsWrittenReportsMiss()
    ensures SlabsOverlap(UnitCube(), SkewRay(), Fin(0.0), Fin(10.0))
    ensures !Hits(UnitCube(), SkewRay(), Fin(0.0), Fin(10.0))
    ensures forall t :: !Inside(At(SkewRay(), t), UnitCube())
  {
    var b, ray := UnitCube(), SkewRay();
    assert Clip(b, ray, 0, Span(Fin(0.0), Fin(10.0))) == Span(Fin(1.0), Fin(2.0));
    assert Clip(b, ray, 1, Span(Fin(0.0), Fin(10.0))) == Span(Fin(3.0), Fin(4.0));
    assert RunningClip(b, ray, 2, Span(Fin(0.0), Fin(10.0))) == Span(Fin(3.0), Fin(2.0));
    ClosedStaysClosed(b, ray, 2, 3, Span(Fin(0.0), Fin(10.0)));
    forall t
      ensures !Inside(At(ray, t), b)
    {
      AtComponents(ray, t, 0);
      AtComponents(ray, t, 1);
    }
  }

  lemma UnscaleLower(x: real, d: real, t: real)
    requires d != 0.0 && x * (1.0 / d) <= t
    ensures 0.0 < d ==> x <= t * d
    ensures d < 0.0 ==> t * d <= x
  {
    var inv := 1.0 / d;
    assert inv * d == 1.0;
    if 0.0 < d {
      assert (x * inv) * d <= t * d;
    } else {
      assert t * d <= (x * inv) * d;
    }
    assert (x * inv) * d == x * (inv * d);
  }

  lemma UnscaleUpper(x: real, d: real, t: real)
    requires d != 0.0 && t <= x * (1.0 / d)
    ensures 0.0 < d ==> t * d <= x
    ensures d < 0.0 ==> x <= t * d
  {
    var inv := 1.0 / d;
    assert inv * d == 1.0;
    if 0.0 < d {
      assert t * d <= (x * inv) * d;
    } else {
      assert (x * inv) * d <= t * d;
    }
    assert (x * inv) * d == x * (inv * d);
  }

  /** A parameter between the two plane distances of a slab puts the ray in the slab. */
  lemma SlabSound(lo: real, hi: real, o: real, d: real, t: real)
    requires d != 0.0
    requires Near(lo, hi, o, d) <= t <= Far(lo, hi, o, d)
    ensures lo <= o + t * d <= hi
  {
    var invD := 1.0 / d;
    assert (0.0 < d <==> 0.0 < invD) && invD != 0.0 by {
      assert invD * d == 1.0;
    }
    if 0.0 < d {
      UnscaleLower(lo - o, d, t);
      UnscaleUpper(hi - o, d, t);
    } else {
      UnscaleLower(hi - o, d, t);
      UnscaleUpper(lo - o, d, t);
    }
  }

  /** A parameter above the raised lower bound lies above `near`, and one below the lowered upper bound below `far`. */
  lemma RaisedBounds(lo: Bound, hi: Bound, near: real, far: real, t: real)
    requires Lt(if Lt(lo, Fin(near)) then Fin(near) else lo, Fin(t))
    requires Lt(Fin(t), if Lt(Fin(far), hi) then Fin(far) else hi)
    ensures near < t < far
  {
  }

  /** A parameter strictly inside the interval left by clipping axis `a` puts the ray in that slab. */
  lemma ClipSound(b: Aabb, ray: Ray, a: nat, s: Span, t: real)
    requires a < 3
    requires Lt(Clip(b, ray, a, s).lo, Fin(t)) && Lt(Fin(t), Clip(b, ray, a, s).hi)
    ensures InsideOn(At(ray, t), b, a)
  {
    AtComponents(ray, t, a);
    var d := ray.dir.Get(a);
    if d != 0.0 {
      var o := ray.orig.Get(a);
      var lo, hi := b.minimum.Get(a), b.maximum.Get(a);
      RaisedBounds(s.lo, s.hi, Near(lo, hi, o, d), Far(lo, hi, o, d), t);
      SlabSound(lo, hi, o, d, t);
    } else {
      ParallelClipSound(b, ray, a, s, t);
    }
  }

  lemma ParallelClipSound(b: Aabb, ray: Ray, a: nat, s: Span, t: real)
    requires a < 3 && ray.dir.Get(a) == 0.0
    requires Lt(Clip(b, ray, a, s).lo, Fin(t)) && Lt(Fin(t), Clip(b, ray, a, s).hi)
    ensures InsideOn(At(ray, t), b, a)
  {
    AtComponents(ray, t, a);
  }

  lemma {:induction false} RunningNarrows(b: Aabb, ray: Ray, m: nat, n: nat, s: Span)
    requires m <= n <= 3
    ensures Le(RunningClip(b, ray, m, s).lo, RunningClip(b, ray, n, s).lo)
    ensures Le(RunningClip(b, ray, n, s).hi, RunningClip(b, ray, m, s).hi)
  {
    if m < n {
      RunningNarrows(b, ray, m, n - 1, s);
      ClipNarrows(b, ray, n - 1, RunningClip(b, ray, n - 1, s));
    }
  }

  /** A finite parameter strictly between two bounds. */
  function Between(lo: Bound, hi: Bound): (t: real)
    requires Lt(lo, hi)
    ensures Lt(lo, Fin(t)) && Lt(Fin(t), hi)
  {
    match (lo, hi)
    case (Fin(l), Fin(h)) => (l + h) / 2.0
    case (Fin(l), _) => l + 1.0
    case (_, Fin(h)) => h - 1.0
    case _ => 0.0
  }

  /**
   * Soundness of the corrected test: when it reports a hit, some parameter
   * strictly inside the query interval puts the ray inside the box.
   */
  lemma HitsIsSound(b: Aabb, ray: Ray, tMin: Bound, tMax: Bound)
    requires Hits(b, ray, tMin, tMax)
    ensures exists t :: Lt(tMin, Fin(t)) && Lt(Fin(t), tMax) && Inside(At(ray, t), b)
  {
    var s := Span(tMin, tMax);
    var last := RunningClip(b, ray, 3, s);
    var t := Between(last.lo, last.hi);
    for a := 0 to 3
      invariant forall k :: 0 <= k < a ==> InsideOn(At(ray, t), b, k)
    {
      RunningNarrows(b, ray, a + 1, 3, s);
      ClipSound(b, ray, a, RunningClip(b, ray, a, s), t);
    }
    RunningNarrows(b, ray, 0, 3, s);
    assert Inside(At(ray, t), b);
  }
}
