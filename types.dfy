/** The values the point service reads and returns: a user's balance snapshot,
    one history entry, and the three failure kinds of the service. */
module PointTypes {

  /** The kind of a history entry. */
  datatype TransactionType = CHARGE | USE

  /** A balance snapshot as the balance table returns it
      (its update timestamp is not modelled). */
  datatype UserPoint = UserPoint(id: int, point: int)

  /** One immutable entry of the history table. */
  datatype PointHistory = PointHistory(userId: int, amount: int, kind: TransactionType, updateMillis: int)

  /** The three distinct failures the service raises:
      no history for the user, a charge over the cap, a use outside the allowed range. */
  datatype Error = NotFound | OverCap | Insufficient

  /** A validator passes or rejects with one failure kind. */
  datatype Outcome = Pass | Fail(error: Error)

  /** What a service operation returns: a value, or the failure it raised. */
  datatype Result<T> = Ok(value: T) | Err(error: Error)
}
