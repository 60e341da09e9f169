/**
 * The `t_min`/`t_max` arguments of every intersection query are f64 values,
 * and callers pass `f64::INFINITY` and `-f64::INFINITY` as open ends.  A
 * `Bound` is a real number or one of the two infinities, ordered as f64
 * orders them (NaN is not modelled).
 */
module Interval {

  datatype Bound = NegInf | Fin(r: real) | PosInf

  /** `a < b` on extended reals. */
  predicate Lt(a: Bound, b: Bound) {
    match a
    case NegInf => !b.NegInf?
    case Fin(x) => (b.Fin? && x < b.r) || b.PosInf?
    case PosInf => false
  }

  /** `a <= b` on extended reals. */
  predicate Le(a: Bound, b: Bound) {
    !Lt(b, a)
  }

  /** `t` lies in the closed query interval `[lo, hi]`. */
  predicate Within(t: real, lo: Bound, hi: Bound) {
    Le(lo, Fin(t)) && Le(Fin(t), hi)
  }

  lemma LtTransitive(a: Bound, b: Bound, c: Bound)
    requires Lt(a, b) && Le(b, c)
    ensures Lt(a, c)
  {
  }
}
