/** Optional floor and ceiling bounds on a spending amount, shared by the spending policies.
    A bound that is `None` applies no clamp. */
module Clamps {
  import opened Options

  /** Raise `x` to the floor `lo` when there is one: the larger of the two. */
  function ApplyFloor(x: real, lo: Option<real>): (r: real)
    ensures r >= x
    ensures lo.Some? ==> r >= lo.value && (r == x || r == lo.value)
    ensures lo.None? ==> r == x
  {
    if lo.Some? && x < lo.value then lo.value else x
  }

  /** Lower `x` to the ceiling `hi` when there is one: the smaller of the two. */
  function ApplyCeiling(x: real, hi: Option<real>): (r: real)
    ensures r <= x
    ensures hi.Some? ==> r <= hi.value && (r == x || r == hi.value)
    ensures hi.None? ==> r == x
  {
    if hi.Some? && hi.value < x then hi.value else x
  }

  /** `x` lies on or above the floor and on or below the ceiling, where these exist. */
  predicate Within(x: real, lo: Option<real>, hi: Option<real>)
  {
    (lo.Some? ==> lo.value <= x) && (hi.Some? ==> x <= hi.value)
  }

  /** The floor is not above the ceiling (trivially so when either is absent). */
  predicate Consistent(lo: Option<real>, hi: Option<real>)
  {
    lo.Some? && hi.Some? ==> lo.value <= hi.value
  }

  /** The floor is applied first, then the ceiling. The result always respects the ceiling, respects
      the floor whenever the two bounds are consistent, is `x` itself when `x` is within both, is
      the floor when `x` lies below a consistent floor, and is the ceiling when `x` lies above it. */
  function Clamp(x: real, lo: Option<real>, hi: Option<real>): (r: real)
    ensures Consistent(lo, hi) ==> Within(r, lo, hi)
    ensures hi.Some? ==> r <= hi.value
    ensures Within(x, lo, hi) ==> r == x
    ensures Consistent(lo, hi) && lo.Some? && x < lo.value ==> r == lo.value
    ensures hi.Some? && hi.value < x ==> r == hi.value
    ensures r == x || (lo.Some? && r == lo.value) || (hi.Some? && r == hi.value)
  {
    ApplyCeiling(ApplyFloor(x, lo), hi)
  }

  /** Re-applying a clamp to a value it has already clamped changes nothing. */
  lemma ClampIdempotent(x: real, lo: Option<real>, hi: Option<real>)
    ensures ApplyFloor(ApplyFloor(x, lo), lo) == ApplyFloor(x, lo)
    ensures ApplyCeiling(ApplyCeiling(x, hi), hi) == ApplyCeiling(x, hi)
    ensures Clamp(Clamp(x, lo, hi), lo, hi) == Clamp(x, lo, hi)
  {
  }

  /** When the floor is not above the ceiling, applying the ceiling first gives the same result. */
  lemma ClampOrderIrrelevant(x: real, lo: Option<real>, hi: Option<real>)
    requires Consistent(lo, hi)
    ensures Clamp(x, lo, hi) == ApplyFloor(ApplyCeiling(x, hi), lo)
  {
  }

  /** A floor above the ceiling is the one case in which the order matters: the ceiling, applied last, wins. */
  lemma ClampOrderMatters()
    ensures Clamp(10.0, Some(3.0), Some(2.0)) == 2.0
    ensures ApplyFloor(ApplyCeiling(10.0, Some(2.0)), Some(3.0)) == 3.0
  {
  }

  /** Clamping never reverses the order of two amounts. */
  lemma ClampMonotone(x: real, y: real, lo: Option<real>, hi: Option<real>)
    requires x <= y
    ensures Clamp(x, lo, hi) <= Clamp(y, lo, hi)
  {
  }
}
