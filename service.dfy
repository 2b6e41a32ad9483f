/** The service that orchestrates the four operations over the two tables.
    Each operation is proved to do exactly what the matching function of
    PointLedger says, so every lemma about those functions holds of it. */
module Service {
  import opened PointTypes
  import opened PointValidator
  import opened PointLedger
  import opened Tables

  class PointService {
    const pointHistoryTable: PointHistoryTable
    const userPointTable: UserPointTable

    constructor (pointHistoryTable: PointHistoryTable, userPointTable: UserPointTable)
      ensures this.pointHistoryTable == pointHistoryTable
      ensures this.userPointTable == userPointTable
    {
      this.pointHistoryTable := pointHistoryTable;
      this.userPointTable := userPointTable;
    }

    /** Both tables, as a value. */
    function State(): Ledger
      reads pointHistoryTable, userPointTable
    {
      Ledger(userPointTable.points, pointHistoryTable.rows)
    }

    /** Balance lookup; the existence check comes first, so a user without
        history never reaches the balance table. */
    method FindUserPointById(userId: int) returns (r: Result<UserPoint>)
      ensures r == PointLedger.FindUserPointById(State(), userId)
    {
      var pointHistories := pointHistoryTable.SelectAllByUserId(userId);
      if pointHistories == [] {
        return Err(NotFound);
      }
      return Ok(userPointTable.SelectById(userId));
    }

    /** History lookup, with no existence check: an empty result is not an error. */
    method FindHistories(userId: int) returns (r: seq<PointHistory>)
      ensures r == HistoriesOf(State().histories, userId)
      ensures forall i :: 0 <= i < |r| ==> r[i].userId == userId
    {
      r := pointHistoryTable.SelectAllByUserId(userId);
    }

    /** Charge. The per-user lock only serialises calls, so its body runs
        directly here. */
    method ChargeUserPoint(userId: int, amount: int, now: int) returns (r: Result<UserPoint>)
      modifies pointHistoryTable, userPointTable
      ensures r == Charge(old(State()), userId, amount, now).result
      ensures State() == Charge(old(State()), userId, amount, now).ledger
      ensures amount >= 0 && WithinPolicy(old(State())) ==> WithinPolicy(State())
    {
      ghost var before := State();
      if amount >= 0 && WithinPolicy(before) {
        ChargePreservesPolicy(before, userId, amount, now);
      }
      match ValidatedChargePoint(amount) {
        case Fail(e) => return Err(e);
        case Pass =>
      }
      var pointHistories := pointHistoryTable.SelectAllByUserId(userId);
      if pointHistories == [] {
        return Err(NotFound);
      }
      var userPoint := userPointTable.SelectById(userId);
      var totalPoint := amount + userPoint.point;
      match ValidatedChargePoint(totalPoint) {
        case Fail(e) => return Err(e);
        case Pass =>
      }
      var chargedUserPoint := userPointTable.InsertOrUpdate(userId, totalPoint);
      var _ := pointHistoryTable.Insert(userId, amount, CHARGE, now);
      return Ok(chargedUserPoint);
    }

    /** Use, in the same steps as Charge. */
    method UsePoint(userId: int, amount: int, now: int) returns (r: Result<UserPoint>)
      modifies pointHistoryTable, userPointTable
      ensures r == Use(old(State()), userId, amount, now).result
      ensures State() == Use(old(State()), userId, amount, now).ledger
      ensures WithinPolicy(old(State())) ==> WithinPolicy(State())
    {
      ghost var before := State();
      if WithinPolicy(before) {
        UsePreservesPolicy(before, userId, amount, now);
      }
      match ValidatedUsePoint(amount) {
        case Fail(e) => return Err(e);
        case Pass =>
      }
      var pointHistories := pointHistoryTable.SelectAllByUserId(userId);
      if pointHistories == [] {
        return Err(NotFound);
      }
      var userPoint := userPointTable.SelectById(userId);
      var totalPoint := userPoint.point - amount;
      match ValidatedUsePoint(totalPoint) {
        case Fail(e) => return Err(e);
        case Pass =>
      }
      var usedUserPoint := userPointTable.InsertOrUpdate(userId, totalPoint);
      var _ := pointHistoryTable.Insert(userId, amount, USE, now);
      return Ok(usedUserPoint);
    }
  }

  /** A caller's view: on fresh tables, one seeded history entry makes the
      user exist; a charge of 100 then a use of 100 leave a zero balance and
      the user's history holds the three entries in order. */
  method ChargeThenUseClient(userId: int)
  {
    var histories := new PointHistoryTable();
    var points := new UserPointTable();
    var service := new PointService(histories, points);
    var missing := service.FindUserPointById(userId);
    assert HistoriesOf([], userId) == [];
    assert missing == Err(NotFound);
    var seed := histories.Insert(userId, 0, CHARGE, 0);
    assert HistoriesOf([seed], userId) == [seed];
    var charged := service.ChargeUserPoint(userId, 100, 1);
    assert charged == Ok(UserPoint(userId, 100));
    var used := service.UsePoint(userId, 100, 2);
    ChargeThenUse(Ledger(map[], [seed]), userId, 100, 1, 2);
    assert used == Ok(UserPoint(userId, 0));
    var h := service.FindHistories(userId);
    assert h == [seed, PointHistory(userId, 100, CHARGE, 1), PointHistory(userId, 100, USE, 2)];
  }
}
