/**
 * The free-flight sampling step of a constant-density medium: where the ray
 * scatters inside the boundary, given the boundary's entry and exit
 * parameters and the logarithm of a uniform draw.
 */
module Medium {
  import opened Wrappers
  import opened Interval

  /** The entry parameter raised to `tMin`. */
  function Entry(enter: real, tMin: Bound): (e: Bound)
    ensures e == Fin(enter) || e == tMin
    ensures Le(tMin, e) && Le(Fin(enter), e)
    ensures e != NegInf
  {
    if Lt(Fin(enter), tMin) then tMin else Fin(enter)
  }

  /** The exit parameter lowered to `tMax`. */
  function Exit(exit: real, tMax: Bound): (e: Bound)
    ensures e == Fin(exit) || e == tMax
    ensures Le(e, tMax) && Le(e, Fin(exit))
    ensures e != PosInf
  {
    if Lt(tMax, Fin(exit)) then tMax else Fin(exit)
  }

  /**
   * The sampled scattering parameter, if any: none when the clamped span is
   * empty or when the sampled distance `negInvDensity * logU` exceeds the
   * distance travelled inside the span; the span's start is raised to 0
   * before the distance is measured.
   */
  function Sample(enter: real, exit: real, tMin: Bound, tMax: Bound, negInvDensity: real, logU: real, rayLength: real): Option<real>
    requires rayLength != 0.0
  {
    var e1 := Entry(enter, tMin);
    var e2 := Exit(exit, tMax);
    if Le(e2, e1) then None
    else
      var lo := if e1.r < 0.0 then 0.0 else e1.r;
      var hitDistance := negInvDensity * logU;
      if hitDistance > (e2.r - lo) * rayLength then None
      else Some(lo + hitDistance / rayLength)
  }

  /**
   * The sampling step as the renderer performs it: the entry is clamped up
   * to `tMin` and the exit down to `tMax` in place, the span rejected when
   * empty, the entry raised to 0, and the sampled distance compared with
   * the distance inside.
   */
  method FreeFlight(enter: real, exit: real, tMin: Bound, tMax: Bound, negInvDensity: real, logU: real, rayLength: real)
    returns (t: Option<real>)
    requires rayLength != 0.0
    ensures t == Sample(enter, exit, tMin, tMax, negInvDensity, logU, rayLength)
  {
    var entry := Fin(enter);
    var leave := Fin(exit);
    if Lt(entry, tMin) {
      entry := tMin;
    }
    if Lt(tMax, leave) {
      leave := tMax;
    }
    if Le(leave, entry) {
      return None;
    }
    var lo := entry.r;
    if lo < 0.0 {
      lo := 0.0;
    }
    var distanceInside := (leave.r - lo) * rayLength;
    var hitDistance := negInvDensity * logU;
    if hitDistance > distanceInside {
      return None;
    }
    return Some(lo + hitDistance / rayLength);
  }

  lemma EmptySpanMisses(enter: real, exit: real, tMin: Bound, tMax: Bound, negInvDensity: real, logU: real, rayLength: real)
    requires rayLength != 0.0
    requires Le(Exit(exit, tMax), Entry(enter, tMin))
    ensures Sample(enter, exit, tMin, tMax, negInvDensity, logU, rayLength) == None
  {
  }

  lemma NonNegativeProduct(a: real, b: real)
    requires a <= 0.0 && b <= 0.0
    ensures 0.0 <= a * b
  {
  }

  lemma QuotientBounds(h: real, w: real, len: real)
    requires 0.0 < len && 0.0 <= h && h <= w * len
    ensures 0.0 <= h / len <= w
  {
    assert (h / len) * len == h;
  }

  /**
   * With a positive density, a non-positive `logU` (the logarithm of a draw
   * in [0, 1), a draw of 0 aside) and a positive ray length, a sampled parameter lies in the
   * query interval, is not negative, and lies between the entry and exit.
   */
  lemma SampleInSpan(enter: real, exit: real, tMin: Bound, tMax: Bound, negInvDensity: real, logU: real, rayLength: real)
    requires 0.0 < rayLength && negInvDensity <= 0.0 && logU <= 0.0
    requires Sample(enter, exit, tMin, tMax, negInvDensity, logU, rayLength).Some?
    ensures var t := Sample(enter, exit, tMin, tMax, negInvDensity, logU, rayLength).value;
      Within(t, tMin, tMax) && 0.0 <= t && enter <= t <= exit
  {
    var e1 := Entry(enter, tMin);
    var e2 := Exit(exit, tMax);
    var lo := if e1.r < 0.0 then 0.0 else e1.r;
    var hitDistance := negInvDensity * logU;
    NonNegativeProduct(negInvDensity, logU);
    QuotientBounds(hitDistance, e2.r - lo, rayLength);
  }
}

/** Construction and bounding box of a constant-density medium. */
module ConstantMedium {
  import opened Wrappers
  import opened Vec3
  import opened Aabb
  import opened HitRecord
  import opened Hittable

  /** The medium with the given boundary and density, scattering with an isotropic phase function. */
  function New(boundary: Hittable, density: real, texture: Texture): (m: Hittable)
    requires density != 0.0
    ensures m.MediumObj? && m.boundary == boundary
    ensures m.negInvDensity * density == -1.0
    ensures m.phase == Isotropic(texture)
  {
    MediumObj(boundary, Isotropic(texture), -1.0 / density)
  }

  /** `new_from_color`: the same, the phase function's texture a solid colour. */
  function NewFromColor(boundary: Hittable, density: real, color: Vec3): (m: Hittable)
    requires density != 0.0
    ensures m == New(boundary, density, SolidColor(color))
  {
    MediumObj(boundary, Isotropic(SolidColor(color)), -1.0 / density)
  }

  /** A positive density gives a medium whose free-flight distances are not negative. */
  lemma PositiveDensityIsDense(boundary: Hittable, density: real, texture: Texture)
    requires 0.0 < density && Dense(boundary)
    ensures Dense(New(boundary, density, texture))
  {
  }
}
