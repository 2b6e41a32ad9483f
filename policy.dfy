/** The bounds every balance must respect. */
module PointPolicy {

  /** The two constants of the policy; each carries a fixed amount. */
  datatype Policy = MaximumPoint | ZeroPoint {
    function Amount(): int {
      match this
      case MaximumPoint => 1_000_000
      case ZeroPoint => 0
    }
  }

  /** A balance the policy admits. */
  predicate InRange(point: int) {
    ZeroPoint.Amount() <= point <= MaximumPoint.Amount()
  }

  /** The constants have the declared amounts, ordered so that the
      admitted range is not empty. */
  lemma PolicyAmounts()
    ensures MaximumPoint.Amount() == 1_000_000
    ensures ZeroPoint.Amount() == 0
    ensures ZeroPoint.Amount() < MaximumPoint.Amount()
    ensures InRange(ZeroPoint.Amount()) && InRange(MaximumPoint.Amount())
  {
  }
}
