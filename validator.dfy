/** The two stateless range checks applied before and after a balance change. */
module PointValidator {
  import opened PointTypes
  import opened PointPolicy

  /** The charge check: rejects only what exceeds the cap; there is no floor. */
  function ValidatedChargePoint(amount: int): (r: Outcome)
    ensures r.Fail? <==> amount > MaximumPoint.Amount()
    ensures r.Fail? ==> r.error == OverCap
  {
    if amount > MaximumPoint.Amount() then Fail(OverCap) else Pass
  }

  /** The use check: rejects anything outside [0, MAX], always as Insufficient,
      even when the value is above the cap. */
  function ValidatedUsePoint(amount: int): (r: Outcome)
    ensures r.Pass? <==> InRange(amount)
    ensures r.Fail? ==> r.error == Insufficient
  {
    if amount < ZeroPoint.Amount() || amount > MaximumPoint.Amount() then Fail(Insufficient) else Pass
  }

  /** The edges of both checks: the cap itself passes both, one above it fails
      both with different kinds, and zero passes the use check. */
  lemma ValidatorEdges()
    ensures ValidatedChargePoint(MaximumPoint.Amount()) == Pass
    ensures ValidatedChargePoint(MaximumPoint.Amount() + 1) == Fail(OverCap)
    ensures ValidatedUsePoint(ZeroPoint.Amount()) == Pass
    ensures ValidatedUsePoint(MaximumPoint.Amount()) == Pass
    ensures ValidatedUsePoint(MaximumPoint.Amount() + 1) == Fail(Insufficient)
  {
  }

  /** A negative value passes the charge check but fails the use check. */
  lemma NegativeValues(x: int)
    requires x < 0
    ensures ValidatedChargePoint(x) == Pass
    ensures ValidatedUsePoint(x) == Fail(Insufficient)
  {
  }

  /** Whenever both checks reject a value, they report different kinds. */
  lemma DistinctFailureKinds(x: int)
    requires ValidatedChargePoint(x).Fail? && ValidatedUsePoint(x).Fail?
    ensures ValidatedChargePoint(x).error != ValidatedUsePoint(x).error
  {
  }
}
