/**
 * The three-component vector of the renderer, used as point, direction and
 * colour.  Components are idealised as reals.
 */
module Vec3 {
  import opened Wrappers

  datatype Vec3 = Vec3(e0: real, e1: real, e2: real) {

    function X(): real { e0 }
    function Y(): real { e1 }
    function Z(): real { e2 }

    /** Component `i` of a vector, for an index already known to be in range. */
    function Get(i: nat): real
      requires i < 3
    {
      if i == 0 then e0 else if i == 1 then e1 else e2
    }

    /** `v[i]`: indexing the backing `[f64; 3]`, which panics (None) from index 3 on. */
    function Index(i: nat): (r: Option<real>)
      ensures r.Some? <==> i < 3
      ensures r.Some? ==> r.value == [e0, e1, e2][i]
    {
      if i < 3 then Some(Get(i)) else None
    }

    /** The vector with component `i` replaced by `x`. */
    function With(i: nat, x: real): (r: Vec3)
      requires i < 3
      ensures r.Get(i) == x
      ensures forall j :: 0 <= j < 3 && j != i ==> r.Get(j) == Get(j)
    {
      if i == 0 then Vec3(x, e1, e2) else if i == 1 then Vec3(e0, x, e2) else Vec3(e0, e1, x)
    }

    /** `v[i] = x` through `IndexMut`: only component `i` changes; index 3 or more panics (None). */
    function IndexMut(i: nat, x: real): (r: Option<Vec3>)
      ensures r.Some? <==> i < 3
      ensures r.Some? ==> r.value.Get(i) == x
      ensures r.Some? ==> forall j :: 0 <= j < 3 && j != i ==> r.value.Get(j) == Get(j)
    {
      if i < 3 then Some(With(i, x)) else None
    }
  }

  const Origin: Vec3 := Vec3(0.0, 0.0, 0.0)

  function Add(a: Vec3, b: Vec3): Vec3 {
    Vec3(a.e0 + b.e0, a.e1 + b.e1, a.e2 + b.e2)
  }

  function Sub(a: Vec3, b: Vec3): Vec3 {
    Vec3(a.e0 - b.e0, a.e1 - b.e1, a.e2 - b.e2)
  }

  function Neg(a: Vec3): Vec3 {
    Vec3(-a.e0, -a.e1, -a.e2)
  }

  function Scale(a: Vec3, s: real): Vec3 {
    Vec3(s * a.e0, s * a.e1, s * a.e2)
  }

  function Dot(a: Vec3, b: Vec3): real {
    a.e0 * b.e0 + a.e1 * b.e1 + a.e2 * b.e2
  }

  /** Squared Euclidean length, never negative. */
  function LengthSquared(v: Vec3): (r: real)
    ensures r >= 0.0
  {
    v.e0 * v.e0 + v.e1 * v.e1 + v.e2 * v.e2
  }

  /** `sqrt` is a square root on the non-negative reals (f64::sqrt idealised). */
  ghost predicate IsSqrt(sqrt: real -> real) {
    forall x :: 0.0 <= x ==> 0.0 <= sqrt(x) && sqrt(x) * sqrt(x) == x
  }

  function Length(v: Vec3, sqrt: real -> real): real {
    sqrt(LengthSquared(v))
  }

  /** `v += other`: the result minus `other` gives back `v`. */
  function AddAssign(v: Vec3, other: Vec3): (r: Vec3)
    ensures Sub(r, other) == v
    ensures forall i :: 0 <= i < 3 ==> r.Get(i) == v.Get(i) + other.Get(i)
  {
    Add(v, other)
  }

  /** `v *= s`: every component is scaled by `s`. */
  function MulAssign(v: Vec3, s: real): (r: Vec3)
    ensures forall i :: 0 <= i < 3 ==> r.Get(i) == s * v.Get(i)
  {
    Scale(v, s)
  }

  /** Scaling twice is scaling by the product, and scaling by 1 changes nothing. */
  lemma MulAssignComposes(v: Vec3, s: real, t: real)
    ensures MulAssign(MulAssign(v, s), t) == MulAssign(v, s * t)
    ensures MulAssign(v, 1.0) == v
  {
    assert t * (s * v.e0) == (s * t) * v.e0;
    assert t * (s * v.e1) == (s * t) * v.e1;
    assert t * (s * v.e2) == (s * t) * v.e2;
  }

  /** `v /= s`, written in the source as `v *= 1.0 / s`: scaling the result by `s` gives back `v`. */
  function DivAssign(v: Vec3, s: real): (r: Vec3)
    requires s != 0.0
    ensures MulAssign(r, s) == v
  {
    MulAssign(v, 1.0 / s)
  }
}
