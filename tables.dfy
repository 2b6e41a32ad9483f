/** The two in-memory tables the service is built on, as objects it updates
    in place. */
module Tables {
  import opened PointTypes
  import opened PointPolicy
  import opened PointLedger

  /** The balance table: user id to balance. */
  class UserPointTable {
    var points: map<int, int>

    constructor ()
      ensures points == map[]
    {
      points := map[];
    }

    /** An id that was never written reads as a zero balance. */
    function SelectById(id: int): (r: UserPoint)
      reads this
      ensures r.id == id
      ensures id in points ==> r.point == points[id]
      ensures id !in points ==> r.point == ZeroPoint.Amount()
    {
      UserPoint(id, ReadPoint(points, id))
    }

    /** Overwrites one user's balance and returns the new snapshot. */
    method InsertOrUpdate(id: int, amount: int) returns (r: UserPoint)
      modifies this
      ensures points == old(points)[id := amount]
      ensures r == UserPoint(id, amount)
    {
      points := points[id := amount];
      r := UserPoint(id, amount);
    }
  }

  /** The history table: every entry in insertion order, append-only. */
  class PointHistoryTable {
    var rows: seq<PointHistory>

    constructor ()
      ensures rows == []
    {
      rows := [];
    }

    /** Exactly the rows of one user, in insertion order. */
    function SelectAllByUserId(userId: int): (r: seq<PointHistory>)
      reads this
      ensures forall i :: 0 <= i < |r| ==> r[i].userId == userId
      ensures forall e :: e in r <==> e in rows && e.userId == userId
    {
      HistoriesOfMembers(rows, userId);
      HistoriesOf(rows, userId)
    }

    /** Appends one entry at the end and returns it. */
    method Insert(userId: int, amount: int, kind: TransactionType, updateMillis: int) returns (e: PointHistory)
      modifies this
      ensures e == PointHistory(userId, amount, kind, updateMillis)
      ensures rows == old(rows) + [e]
    {
      e := PointHistory(userId, amount, kind, updateMillis);
      rows := rows + [e];
    }
  }
}
