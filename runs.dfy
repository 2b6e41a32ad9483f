/** Charges and uses on one user applied one at a time, in the order they take
    the user's lock. Under the per-user lock every concurrent schedule is one
    of these runs, so the concurrent tests' end states are statements about Run. */
module PointRuns {
  import opened PointTypes
  import opened PointPolicy
  import opened PointLedger

  /** One call of chargeUserPoint (CHARGE) or usePoint (USE), with its clock reading. */
  datatype Request = Request(kind: TransactionType, amount: int, at: int)

  /** The results of a run, one per request, and the tables at its end. */
  datatype Trace = Trace(results: seq<Result<UserPoint>>, final: Ledger)

  function Apply(l: Ledger, userId: int, q: Request): Step {
    match q.kind
    case CHARGE => Charge(l, userId, q.amount, q.at)
    case USE => Use(l, userId, q.amount, q.at)
  }

  /** Every request either succeeds or fails: one result per request. */
  function Run(l: Ledger, userId: int, qs: seq<Request>): (t: Trace)
    ensures |t.results| == |qs|
    decreases |qs|
  {
    if qs == [] then Trace([], l)
    else
      var s := Apply(l, userId, qs[0]);
      var t := Run(s.ledger, userId, qs[1..]);
      Trace([s.result] + t.results, t.final)
  }

  function SuccessCount(rs: seq<Result<UserPoint>>): nat {
    if rs == [] then 0 else (if rs[0].Ok? then 1 else 0) + SuccessCount(rs[1..])
  }

  function FailCount(rs: seq<Result<UserPoint>>): nat {
    if rs == [] then 0 else (if rs[0].Err? then 1 else 0) + FailCount(rs[1..])
  }

  /** The signed change made by the successful requests: + amount for a
      charge, - amount for a use. */
  function Net(qs: seq<Request>, rs: seq<Result<UserPoint>>): int
    requires |qs| == |rs|
  {
    if qs == [] then 0
    else
      (if rs[0].Err? then 0 else if qs[0].kind == CHARGE then qs[0].amount else -qs[0].amount)
      + Net(qs[1..], rs[1..])
  }

  /** The history entries the successful requests append, in order. */
  function Entries(userId: int, qs: seq<Request>, rs: seq<Result<UserPoint>>): seq<PointHistory>
    requires |qs| == |rs|
  {
    if qs == [] then []
    else
      (if rs[0].Ok? then [PointHistory(userId, qs[0].amount, qs[0].kind, qs[0].at)] else [])
      + Entries(userId, qs[1..], rs[1..])
  }

  /** successCount + failCount = N. */
  lemma {:induction false} CountsAddUp(rs: seq<Result<UserPoint>>)
    ensures SuccessCount(rs) + FailCount(rs) == |rs|
  {
    if rs != [] {
      CountsAddUp(rs[1..]);
    }
  }

  /** One entry per successful request. */
  lemma {:induction false} EntriesCount(userId: int, qs: seq<Request>, rs: seq<Result<UserPoint>>)
    requires |qs| == |rs|
    ensures |Entries(userId, qs, rs)| == SuccessCount(rs)
  {
    if qs != [] {
      EntriesCount(userId, qs[1..], rs[1..]);
    }
  }

  /** One step of a run on this user's balance and history. */
  lemma ApplyEffect(l: Ledger, userId: int, q: Request)
    ensures var s := Apply(l, userId, q);
            && PointOf(s.ledger, userId)
               == PointOf(l, userId) + (if s.result.Err? then 0 else if q.kind == CHARGE then q.amount else -q.amount)
            && HistoriesOf(s.ledger.histories, userId)
               == HistoriesOf(l.histories, userId)
                  + (if s.result.Ok? then [PointHistory(userId, q.amount, q.kind, q.at)] else [])
            && l.histories <= s.ledger.histories
  {
    match q.kind
    case CHARGE =>
      ChargeOutcome(l, userId, q.amount, q.at);
      if Charge(l, userId, q.amount, q.at).result.Ok? { ChargeEffect(l, userId, q.amount, q.at); }
    case USE =>
      UseOutcome(l, userId, q.amount, q.at);
      if Use(l, userId, q.amount, q.at).result.Ok? { UseEffect(l, userId, q.amount, q.at); }
  }

  /** One step of a run leaves every other user's balance and history alone. */
  lemma ApplyFrame(l: Ledger, userId: int, q: Request, v: int)
    requires v != userId
    ensures PointOf(Apply(l, userId, q).ledger, v) == PointOf(l, v)
    ensures HistoriesOf(Apply(l, userId, q).ledger.histories, v) == HistoriesOf(l.histories, v)
  {
    match q.kind
    case CHARGE =>
      ChargeOutcome(l, userId, q.amount, q.at);
      if Charge(l, userId, q.amount, q.at).result.Ok? { ChargeEffect(l, userId, q.amount, q.at); }
    case USE =>
      UseOutcome(l, userId, q.amount, q.at);
      if Use(l, userId, q.amount, q.at).result.Ok? { UseEffect(l, userId, q.amount, q.at); }
  }

  /** No lost update: the final balance is the initial balance plus the
      successful charges minus the successful uses. */
  lemma {:induction false} RunBalance(l: Ledger, userId: int, qs: seq<Request>)
    ensures PointOf(Run(l, userId, qs).final, userId) == PointOf(l, userId) + Net(qs, Run(l, userId, qs).results)
    decreases |qs|
  {
    if qs != [] {
      var s := Apply(l, userId, qs[0]);
      ApplyEffect(l, userId, qs[0]);
      RunBalance(s.ledger, userId, qs[1..]);
      var t := Run(l, userId, qs);
      assert t.results[1..] == Run(s.ledger, userId, qs[1..]).results;
    }
  }

  /** The user's history gains exactly the successful requests' entries, in
      the order they were applied. */
  lemma {:induction false} RunHistory(l: Ledger, userId: int, qs: seq<Request>)
    ensures HistoriesOf(Run(l, userId, qs).final.histories, userId)
         == HistoriesOf(l.histories, userId) + Entries(userId, qs, Run(l, userId, qs).results)
    decreases |qs|
  {
    if qs != [] {
      var s := Apply(l, userId, qs[0]);
      ApplyEffect(l, userId, qs[0]);
      RunHistory(s.ledger, userId, qs[1..]);
      var t := Run(l, userId, qs);
      assert t.results[1..] == Run(s.ledger, userId, qs[1..]).results;
    }
  }

  /** Other users' balances and histories are never touched. */
  lemma {:induction false} RunOthersUnchanged(l: Ledger, userId: int, qs: seq<Request>, v: int)
    requires v != userId
    ensures PointOf(Run(l, userId, qs).final, v) == PointOf(l, v)
    ensures HistoriesOf(Run(l, userId, qs).final.histories, v) == HistoriesOf(l.histories, v)
    decreases |qs|
  {
    if qs != [] {
      var s := Apply(l, userId, qs[0]);
      ApplyFrame(l, userId, qs[0], v);
      RunOthersUnchanged(s.ledger, userId, qs[1..], v);
    }
  }

  /** With non-negative charge amounts, 0 <= balance <= MAX holds after every run. */
  lemma {:induction false} RunPreservesPolicy(l: Ledger, userId: int, qs: seq<Request>)
    requires WithinPolicy(l)
    requires forall i :: 0 <= i < |qs| && qs[i].kind == CHARGE ==> qs[i].amount >= 0
    ensures WithinPolicy(Run(l, userId, qs).final)
    decreases |qs|
  {
    if qs != [] {
      var q := qs[0];
      match q.kind {
        case CHARGE => ChargePreservesPolicy(l, userId, q.amount, q.at);
        case USE => UsePreservesPolicy(l, userId, q.amount, q.at);
      }
      RunPreservesPolicy(Apply(l, userId, q).ledger, userId, qs[1..]);
    }
  }

  function Min(a: int, b: int): int {
    if a <= b then a else b
  }

  lemma {:induction false} MulNonNegative(a: int, b: nat)
    requires a >= 0
    ensures a * b >= 0
  {
    if b > 0 {
      MulNonNegative(a, b - 1);
      assert a * b == a * (b - 1) + a;
    }
  }

  lemma DivUnique(x: int, a: int, q: int)
    requires a > 0 && a * q <= x < a * q + a
    ensures x / a == q
  {
    var q', r' := x / a, x % a;
    assert x == a * q' + r' && 0 <= r' < a;
    if q' > q {
      MulNonNegative(a, q' - q - 1);
      assert false;
    } else if q' < q {
      MulNonNegative(a, q - q' - 1);
      assert false;
    }
  }

  lemma MulPredecessor(k: int, a: int)
    ensures (k - 1) * a + a == k * a
  {
  }

  /** Taking a from the room lowers the quotient by one. */
  lemma QuotientStep(x: int, a: int)
    requires a > 0 && x >= a
    ensures (x - a) / a == x / a - 1
  {
    var q := x / a;
    assert a * q <= x < a * q + a;
    assert a * (q - 1) == a * q - a;
    DivUnique(x - a, a, q - 1);
  }

  /** Counting the results of a run that starts with one given result. */
  lemma SuccessCountCons(r: Result<UserPoint>, rs: seq<Result<UserPoint>>)
    ensures SuccessCount([r] + rs) == (if r.Ok? then 1 else 0) + SuccessCount(rs)
  {
    assert ([r] + rs)[1..] == rs;
  }

  /** One charge of a on an existing user: it succeeds exactly when it fits
      under the cap, and the user stays existing. */
  lemma ChargeStep(l: Ledger, userId: int, q: Request)
    requires q.kind == CHARGE && 0 <= q.amount <= MaximumPoint.Amount() && Exists(l, userId)
    ensures var s := Apply(l, userId, q);
            && Exists(s.ledger, userId)
            && (PointOf(l, userId) + q.amount <= MaximumPoint.Amount() ==>
                  s.result.Ok? && PointOf(s.ledger, userId) == PointOf(l, userId) + q.amount)
            && (PointOf(l, userId) + q.amount > MaximumPoint.Amount() ==>
                  s.result == Err(OverCap) && s.ledger == l)
  {
    ChargeOutcome(l, userId, q.amount, q.at);
    ApplyEffect(l, userId, q);
    ExistsAlongPrefix(l, Apply(l, userId, q).ledger, userId);
  }

  /** One use of a on an existing user with a balance in range: it succeeds
      exactly when the balance covers it, and the user stays existing. */
  lemma UseStep(l: Ledger, userId: int, q: Request)
    requires q.kind == USE && 0 <= q.amount <= MaximumPoint.Amount() && Exists(l, userId)
    requires InRange(PointOf(l, userId))
    ensures var s := Apply(l, userId, q);
            && Exists(s.ledger, userId)
            && (q.amount <= PointOf(l, userId) ==>
                  s.result.Ok? && PointOf(s.ledger, userId) == PointOf(l, userId) - q.amount)
            && (q.amount > PointOf(l, userId) ==>
                  s.result == Err(Insufficient) && s.ledger == l)
  {
    UseOutcome(l, userId, q.amount, q.at);
    ApplyEffect(l, userId, q);
    ExistsAlongPrefix(l, Apply(l, userId, q).ledger, userId);
  }

  /** Run unfolded by one request. */
  lemma RunCons(l: Ledger, userId: int, qs: seq<Request>)
    requires qs != []
    ensures var s := Apply(l, userId, qs[0]);
            var t' := Run(s.ledger, userId, qs[1..]);
            Run(l, userId, qs) == Trace([s.result] + t'.results, t'.final)
  {
  }

  /** Once a charge of a no longer fits under the cap, every further charge of
      a fails with OverCap and the tables stay as they are. */
  lemma {:induction false} ChargesRejected(l: Ledger, userId: int, qs: seq<Request>, a: int)
    requires 0 <= a <= MaximumPoint.Amount() && Exists(l, userId)
    requires PointOf(l, userId) + a > MaximumPoint.Amount()
    requires forall i :: 0 <= i < |qs| ==> qs[i].kind == CHARGE && qs[i].amount == a
    ensures Run(l, userId, qs).final == l
    ensures SuccessCount(Run(l, userId, qs).results) == 0
    ensures forall i :: 0 <= i < |qs| ==> Run(l, userId, qs).results[i] == Err(OverCap)
    decreases |qs|
  {
    if qs != [] {
      RunCons(l, userId, qs);
      ChargeStep(l, userId, qs[0]);
      SuccessCountCons(Err(OverCap), Run(l, userId, qs[1..]).results);
      ChargesRejected(l, userId, qs[1..], a);
    }
  }

  /** Once a use of a is no longer covered by the balance, every further use
      of a fails with Insufficient and the tables stay as they are. */
  lemma {:induction false} UsesRejected(l: Ledger, userId: int, qs: seq<Request>, a: int)
    requires 0 <= a <= MaximumPoint.Amount() && Exists(l, userId)
    requires InRange(PointOf(l, userId)) && PointOf(l, userId) < a
    requires forall i :: 0 <= i < |qs| ==> qs[i].kind == USE && qs[i].amount == a
    ensures Run(l, userId, qs).final == l
    ensures SuccessCount(Run(l, userId, qs).results) == 0
    ensures forall i :: 0 <= i < |qs| ==> Run(l, userId, qs).results[i] == Err(Insufficient)
    decreases |qs|
  {
    if qs != [] {
      RunCons(l, userId, qs);
      UseStep(l, userId, qs[0]);
      SuccessCountCons(Err(Insufficient), Run(l, userId, qs[1..]).results);
      UsesRejected(l, userId, qs[1..], a);
    }
  }

  /** N identical charges of a positive amount a on an existing user with
      room = MAX - balance: the first k = min(N, room / a) succeed, all later
      ones fail with OverCap, and the balance ends k * a higher. */
  lemma {:induction false} RepeatedCharges(l: Ledger, userId: int, qs: seq<Request>, a: int, room: int)
    requires 0 < a <= MaximumPoint.Amount()
    requires Exists(l, userId) && room == MaximumPoint.Amount() - PointOf(l, userId) && room >= 0
    requires forall i :: 0 <= i < |qs| ==> qs[i].kind == CHARGE && qs[i].amount == a
    ensures var t := Run(l, userId, qs);
            var k := Min(|qs|, room / a);
            && SuccessCount(t.results) == k
            && PointOf(t.final, userId) == PointOf(l, userId) + k * a
            && (forall i :: 0 <= i < k ==> t.results[i].Ok?)
            && (forall i :: k <= i < |qs| ==> t.results[i] == Err(OverCap))
    decreases |qs|
  {
    if qs != [] {
      var s := Apply(l, userId, qs[0]);
      var t' := Run(s.ledger, userId, qs[1..]);
      RunCons(l, userId, qs);
      SuccessCountCons(s.result, t'.results);
      ChargeStep(l, userId, qs[0]);
      if a <= room {
        QuotientStep(room, a);
        RepeatedCharges(s.ledger, userId, qs[1..], a, room - a);
        MulPredecessor(Min(|qs|, room / a), a);
      } else {
        DivUnique(room, a, 0);
        ChargesRejected(l, userId, qs, a);
      }
    }
  }

  /** N identical uses of a positive amount a on an existing user holding a
      balance in [0, MAX]: the first k = min(N, balance / a) succeed, all later
      ones fail with Insufficient, and the balance ends k * a lower. */
  lemma {:induction false} RepeatedUses(l: Ledger, userId: int, qs: seq<Request>, a: int)
    requires 0 < a <= MaximumPoint.Amount()
    requires Exists(l, userId) && InRange(PointOf(l, userId))
    requires forall i :: 0 <= i < |qs| ==> qs[i].kind == USE && qs[i].amount == a
    ensures var t := Run(l, userId, qs);
            var k := Min(|qs|, PointOf(l, userId) / a);
            && SuccessCount(t.results) == k
            && PointOf(t.final, userId) == PointOf(l, userId) - k * a
            && (forall i :: 0 <= i < k ==> t.results[i].Ok?)
            && (forall i :: k <= i < |qs| ==> t.results[i] == Err(Insufficient))
    decreases |qs|
  {
    if qs != [] {
      var b := PointOf(l, userId);
      var s := Apply(l, userId, qs[0]);
      var t' := Run(s.ledger, userId, qs[1..]);
      RunCons(l, userId, qs);
      SuccessCountCons(s.result, t'.results);
      UseStep(l, userId, qs[0]);
      if a <= b {
        QuotientStep(b, a);
        RepeatedUses(s.ledger, userId, qs[1..], a);
        var k := Min(|qs|, b / a);
        MulPredecessor(k, a);
      } else {
        DivUnique(b, a, 0);
        UsesRejected(l, userId, qs, a);
      }
    }
  }
  // ---------------------------------------------------------------------------
  // The concurrent scenarios, applied one at a time

  /** Twenty charges of 100 on a user with one CHARGE entry of 100 and no
      balance written yet: all succeed, the balance is 2,000 and the user has
      21 entries. */
  lemma {:induction false} TwentyChargesScenario(userId: int, t0: int, qs: seq<Request>)
    requires |qs| == 20
    requires forall i :: 0 <= i < |qs| ==> qs[i].kind == CHARGE && qs[i].amount == 100
    ensures var l := Ledger(map[], [PointHistory(userId, 100, CHARGE, t0)]);
            var t := Run(l, userId, qs);
            && SuccessCount(t.results) == 20 && FailCount(t.results) == 0
            && PointOf(t.final, userId) == 2_000
            && |HistoriesOf(t.final.histories, userId)| == 21
  {
    var l := Ledger(map[], [PointHistory(userId, 100, CHARGE, t0)]);
    assert HistoriesOf(l.histories, userId) == l.histories;
    RepeatedCharges(l, userId, qs, 100, 1_000_000);
    CountsAddUp(Run(l, userId, qs).results);
    RunHistory(l, userId, qs);
    EntriesCount(userId, qs, Run(l, userId, qs).results);
  }

  /** Twenty charges of MAX / 5 on an existing user with no balance yet: five
      succeed, fifteen fail with OverCap, and the balance ends at MAX. */
  lemma {:induction false} ChargesOverCapScenario(userId: int, t0: int, qs: seq<Request>)
    requires |qs| == 20
    requires forall i :: 0 <= i < |qs| ==> qs[i].kind == CHARGE && qs[i].amount == 200_000
    ensures var l := Ledger(map[], [PointHistory(userId, 100, CHARGE, t0)]);
            var t := Run(l, userId, qs);
            && SuccessCount(t.results) == 5 && FailCount(t.results) == 15
            && PointOf(t.final, userId) == MaximumPoint.Amount()
            && (forall i :: 5 <= i < 20 ==> t.results[i] == Err(OverCap))
  {
    var l := Ledger(map[], [PointHistory(userId, 100, CHARGE, t0)]);
    assert HistoriesOf(l.histories, userId) == l.histories;
    RepeatedCharges(l, userId, qs, 200_000, 1_000_000);
    CountsAddUp(Run(l, userId, qs).results);
  }

  /** Ten uses of 1000 / 7 = 142 on an existing user holding 1,000: seven
      succeed, three fail with Insufficient, and 6 points remain. */
  lemma {:induction false} UsesOverBalanceScenario(userId: int, t0: int, qs: seq<Request>)
    requires |qs| == 10
    requires forall i :: 0 <= i < |qs| ==> qs[i].kind == USE && qs[i].amount == 142
    ensures var l := Ledger(map[userId := 1_000], [PointHistory(userId, 100, CHARGE, t0)]);
            var t := Run(l, userId, qs);
            && SuccessCount(t.results) == 7 && FailCount(t.results) == 3
            && PointOf(t.final, userId) == 6
            && (forall i :: 7 <= i < 10 ==> t.results[i] == Err(Insufficient))
  {
    var l := Ledger(map[userId := 1_000], [PointHistory(userId, 100, CHARGE, t0)]);
    assert HistoriesOf(l.histories, userId) == l.histories;
    RepeatedUses(l, userId, qs, 142);
    CountsAddUp(Run(l, userId, qs).results);
  }

  /** Ten uses of 100 on an existing user whose balance was never written:
      every use fails with Insufficient, nothing succeeds, and the balance
      stays at 1,000 - 100 * 10 = 0 only because it never moved. */
  lemma {:induction false} UsesFromUnwrittenScenario(userId: int, t0: int, qs: seq<Request>)
    requires |qs| == 10
    requires forall i :: 0 <= i < |qs| ==> qs[i].kind == USE && qs[i].amount == 100
    ensures var l := Ledger(map[], [PointHistory(userId, 100, CHARGE, t0)]);
            var t := Run(l, userId, qs);
            && SuccessCount(t.results) == 0
            && (forall i :: 0 <= i < 10 ==> t.results[i] == Err(Insufficient))
            && PointOf(t.final, userId) == 1_000 - 100 * 10
  {
    var l := Ledger(map[], [PointHistory(userId, 100, CHARGE, t0)]);
    assert HistoriesOf(l.histories, userId) == l.histories;
    UsesRejected(l, userId, qs, 100);
  }

  /** Ten uses of 250 on a user holding 1,000: exactly four succeed, six fail
      with Insufficient, and the balance ends at zero. */
  lemma {:induction false} UsesDrainScenario(userId: int, t0: int, qs: seq<Request>)
    requires |qs| == 10
    requires forall i :: 0 <= i < |qs| ==> qs[i].kind == USE && qs[i].amount == 250
    ensures var l := Ledger(map[userId := 1_000], [PointHistory(userId, 1_000, CHARGE, t0)]);
            var t := Run(l, userId, qs);
            && SuccessCount(t.results) == 4 && FailCount(t.results) == 6
            && PointOf(t.final, userId) == 0
  {
    var l := Ledger(map[userId := 1_000], [PointHistory(userId, 1_000, CHARGE, t0)]);
    assert HistoriesOf(l.histories, userId) == l.histories;
    RepeatedUses(l, userId, qs, 250);
    CountsAddUp(Run(l, userId, qs).results);
  }
}
