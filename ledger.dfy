/** The point ledger as a value: the balance table and the history table, and
    the four service operations as functions of that value. The class in
    service.dfy is proved to follow these functions step by step. */
module PointLedger {
  import opened PointTypes
  import opened PointPolicy
  import opened PointValidator

  /** Both tables: balances by user id, and every history entry in insertion order. */
  datatype Ledger = Ledger(points: map<int, int>, histories: seq<PointHistory>)

  /** What an operation returns, together with the tables afterwards. */
  datatype Step = Step(result: Result<UserPoint>, ledger: Ledger)

  /** The balance table's read on its map: an id that was never written
      reads as zero. */
  function ReadPoint(points: map<int, int>, id: int): int {
    if id in points then points[id] else ZeroPoint.Amount()
  }

  /** The balance the ledger holds for a user: zero until first written, and
      within policy whenever the table is. */
  function PointOf(l: Ledger, userId: int): (r: int)
    ensures userId !in l.points ==> r == ZeroPoint.Amount()
    ensures WithinPolicy(l) ==> InRange(r)
  {
    ReadPoint(l.points, userId)
  }

  /** The history table's read: exactly the entries of one user, in the order
      they were inserted. */
  function HistoriesOf(h: seq<PointHistory>, userId: int): (r: seq<PointHistory>)
    ensures |r| <= |h|
    ensures forall i :: 0 <= i < |r| ==> r[i].userId == userId
  {
    if h == [] then []
    else (if h[0].userId == userId then [h[0]] else []) + HistoriesOf(h[1..], userId)
  }

  /** A user exists exactly when the history table holds an entry for it;
      the balance table plays no part. The call to HistoriesOfNonEmpty is
      what proves the ensures; the predicate itself is the emptiness test. */
  predicate Exists(l: Ledger, userId: int): (b: bool)
    ensures b <==> exists i :: 0 <= i < |l.histories| && l.histories[i].userId == userId
  {
    HistoriesOfNonEmpty(l.histories, userId);
    HistoriesOf(l.histories, userId) != []
  }

  /** One user's read is non-empty exactly when some entry carries that user. */
  lemma HistoriesOfNonEmpty(h: seq<PointHistory>, userId: int)
    ensures HistoriesOf(h, userId) != [] <==> exists i :: 0 <= i < |h| && h[i].userId == userId
  {
    HistoriesOfMembers(h, userId);
    var r := HistoriesOf(h, userId);
    assert r != [] ==> r[0] in r;
    assert forall i :: 0 <= i < |h| && h[i].userId == userId ==> h[i] in r;
  }

  /** The invariant every balance write is guarded by: 0 <= balance <= MAX. */
  predicate WithinPolicy(l: Ledger) {
    forall id :: id in l.points ==> InRange(l.points[id])
  }

  /** Balance lookup: NotFound without history, else the balance table's snapshot. */
  function FindUserPointById(l: Ledger, userId: int): (r: Result<UserPoint>)
    ensures r.Err? <==> !Exists(l, userId)
    ensures r.Err? ==> r.error == NotFound
    ensures r.Ok? ==> r.value.id == userId && (WithinPolicy(l) ==> InRange(r.value.point))
  {
    if HistoriesOf(l.histories, userId) == [] then Err(NotFound)
    else Ok(UserPoint(userId, PointOf(l, userId)))
  }

  /** Charge: pre-check the amount, check existence, read, add, re-check the
      total, overwrite the balance, append a CHARGE entry carrying the amount. */
  function Charge(l: Ledger, userId: int, amount: int, now: int): (s: Step)
    ensures s.result.Err? ==> s.ledger == l
    ensures s.result.Err? && Exists(l, userId) ==> s.result.error != NotFound
    ensures s.result.Ok? ==>
              s.ledger.histories == l.histories + [PointHistory(userId, amount, CHARGE, now)]
              && s.ledger.points.Keys == l.points.Keys + {userId}
              && s.result.value == UserPoint(userId, PointOf(s.ledger, userId))
  {
    match ValidatedChargePoint(amount)
    case Fail(e) => Step(Err(e), l)
    case Pass =>
      if HistoriesOf(l.histories, userId) == [] then Step(Err(NotFound), l)
      else
        var total := amount + PointOf(l, userId);
        match ValidatedChargePoint(total)
        case Fail(e) => Step(Err(e), l)
        case Pass =>
          Step(Ok(UserPoint(userId, total)),
               Ledger(l.points[userId := total],
                      l.histories + [PointHistory(userId, amount, CHARGE, now)]))
  }

  /** Use: the same steps with total = balance - amount, both checks being the
      use check, and a USE entry carrying the used amount. */
  function Use(l: Ledger, userId: int, amount: int, now: int): (s: Step)
    ensures s.result.Err? ==> s.ledger == l
    ensures s.result.Err? && Exists(l, userId) ==> s.result.error != NotFound
    ensures s.result.Ok? ==>
              s.ledger.histories == l.histories + [PointHistory(userId, amount, USE, now)]
              && s.ledger.points.Keys == l.points.Keys + {userId}
              && s.result.value == UserPoint(userId, PointOf(s.ledger, userId))
  {
    match ValidatedUsePoint(amount)
    case Fail(e) => Step(Err(e), l)
    case Pass =>
      if HistoriesOf(l.histories, userId) == [] then Step(Err(NotFound), l)
      else
        var total := PointOf(l, userId) - amount;
        match ValidatedUsePoint(total)
        case Fail(e) => Step(Err(e), l)
        case Pass =>
          Step(Ok(UserPoint(userId, total)),
               Ledger(l.points[userId := total],
                      l.histories + [PointHistory(userId, amount, USE, now)]))
  }

  // ---------------------------------------------------------------------------
  // The history table's read

  /** Reading a concatenation reads each part in turn: the read keeps the
      insertion order. */
  lemma {:induction false} HistoriesOfConcat(a: seq<PointHistory>, b: seq<PointHistory>, userId: int)
    ensures HistoriesOf(a + b, userId) == HistoriesOf(a, userId) + HistoriesOf(b, userId)
  {
    if a == [] {
      assert a + b == b;
    } else {
      assert (a + b)[0] == a[0];
      assert (a + b)[1..] == a[1..] + b;
      HistoriesOfConcat(a[1..], b, userId);
    }
  }

  /** Appending one entry extends exactly its own user's read, at the end. */
  lemma HistoriesOfAppend(h: seq<PointHistory>, e: PointHistory, userId: int)
    ensures HistoriesOf(h + [e], userId)
         == HistoriesOf(h, userId) + (if e.userId == userId then [e] else [])
  {
    HistoriesOfConcat(h, [e], userId);
    assert [e][1..] == [];
  }

  /** The read holds every entry of the user and nothing else. */
  lemma {:induction false} HistoriesOfMembers(h: seq<PointHistory>, userId: int)
    ensures forall e :: e in HistoriesOf(h, userId) <==> e in h && e.userId == userId
  {
    if h != [] {
      HistoriesOfMembers(h[1..], userId);
      assert forall e :: e in h <==> e == h[0] || e in h[1..];
    }
  }

  /** A history made only of one user's entries reads back verbatim. */
  lemma {:induction false} HistoriesOfOwn(h: seq<PointHistory>, userId: int)
    requires forall i :: 0 <= i < |h| ==> h[i].userId == userId
    ensures HistoriesOf(h, userId) == h
  {
    if h != [] {
      HistoriesOfOwn(h[1..], userId);
    }
  }

  /** Existence only ever grows along an append-only history. */
  lemma ExistsAlongPrefix(l: Ledger, l': Ledger, userId: int)
    requires l.histories <= l'.histories
    requires Exists(l, userId)
    ensures Exists(l', userId)
  {
    HistoriesOfConcat(l.histories, l'.histories[|l.histories|..], userId);
    assert l.histories + l'.histories[|l.histories|..] == l'.histories;
  }

  // ---------------------------------------------------------------------------
  // Balance lookup

  /** Lookup fails with NotFound exactly when the user has no history, and
      then whatever the balance table holds; otherwise it returns the table's
      snapshot untouched. */
  lemma FindUserPointOutcome(l: Ledger, points: map<int, int>, userId: int)
    ensures FindUserPointById(l, userId).Err? <==> !Exists(l, userId)
    ensures !Exists(l, userId) ==>
              FindUserPointById(l, userId) == Err(NotFound)
              && FindUserPointById(Ledger(points, l.histories), userId) == Err(NotFound)
    ensures Exists(l, userId) ==>
              FindUserPointById(l, userId) == Ok(UserPoint(userId, PointOf(l, userId)))
  {
  }

  // ---------------------------------------------------------------------------
  // Charge

  /** A charge succeeds exactly when the amount alone is within the cap, the
      user exists, and balance + amount is within the cap. Each rejection has
      its own kind, and a rejected charge changes neither table. */
  lemma ChargeOutcome(l: Ledger, userId: int, amount: int, now: int)
    ensures Charge(l, userId, amount, now).result.Ok?
        <==> amount <= MaximumPoint.Amount() && Exists(l, userId)
             && PointOf(l, userId) + amount <= MaximumPoint.Amount()
    ensures amount > MaximumPoint.Amount() ==> Charge(l, userId, amount, now).result == Err(OverCap)
    ensures amount <= MaximumPoint.Amount() && !Exists(l, userId) ==>
              Charge(l, userId, amount, now).result == Err(NotFound)
    ensures amount <= MaximumPoint.Amount() && Exists(l, userId)
            && PointOf(l, userId) + amount > MaximumPoint.Amount() ==>
              Charge(l, userId, amount, now).result == Err(OverCap)
    ensures Charge(l, userId, amount, now).result.Err? ==> Charge(l, userId, amount, now).ledger == l
  {
  }

  /** A successful charge returns old + amount, writes that balance for this
      user only, and appends exactly one (userId, amount, CHARGE) entry at the
      end: this user's history gains it, every other user's is unchanged. */
  lemma ChargeEffect(l: Ledger, userId: int, amount: int, now: int)
    requires Charge(l, userId, amount, now).result.Ok?
    ensures var s := Charge(l, userId, amount, now);
            var entry := PointHistory(userId, amount, CHARGE, now);
            && s.result.value == UserPoint(userId, PointOf(l, userId) + amount)
            && PointOf(s.ledger, userId) == PointOf(l, userId) + amount
            && s.ledger.points.Keys == l.points.Keys + {userId}
            && (forall v :: v != userId ==> PointOf(s.ledger, v) == PointOf(l, v))
            && s.ledger.histories == l.histories + [entry]
            && HistoriesOf(s.ledger.histories, userId) == HistoriesOf(l.histories, userId) + [entry]
            && (forall v :: v != userId ==> HistoriesOf(s.ledger.histories, v) == HistoriesOf(l.histories, v))
  {
    var entry := PointHistory(userId, amount, CHARGE, now);
    forall v
      ensures HistoriesOf(l.histories + [entry], v)
           == HistoriesOf(l.histories, v) + (if v == userId then [entry] else [])
    {
      HistoriesOfAppend(l.histories, entry, v);
    }
  }

  /** With a non-negative amount (the request layer rejects negative ones), a
      charge keeps every balance within [0, MAX]. */
  lemma ChargePreservesPolicy(l: Ledger, userId: int, amount: int, now: int)
    requires WithinPolicy(l)
    requires amount >= 0
    ensures WithinPolicy(Charge(l, userId, amount, now).ledger)
  {
  }

  /** The charge check has no floor: on its own the service accepts a negative
      charge and writes a negative balance, so ChargePreservesPolicy needs its
      requirement on the amount. */
  lemma NegativeChargeUnguarded()
    ensures var l := Ledger(map[], [PointHistory(1, 10, CHARGE, 0)]);
            && WithinPolicy(l)
            && Charge(l, 1, -1, 0).result == Ok(UserPoint(1, -1))
            && !WithinPolicy(Charge(l, 1, -1, 0).ledger)
  {
    var l := Ledger(map[], [PointHistory(1, 10, CHARGE, 0)]);
    assert HistoriesOf(l.histories, 1) == [PointHistory(1, 10, CHARGE, 0)];
    assert Charge(l, 1, -1, 0).ledger.points == map[1 := -1];
  }

  // ---------------------------------------------------------------------------
  // Use

  /** A use succeeds exactly when the amount is within [0, MAX], the user
      exists, and balance - amount is within [0, MAX]. Every range failure is
      Insufficient, and a rejected use changes neither table. */
  lemma UseOutcome(l: Ledger, userId: int, amount: int, now: int)
    ensures Use(l, userId, amount, now).result.Ok?
        <==> InRange(amount) && Exists(l, userId) && InRange(PointOf(l, userId) - amount)
    ensures !InRange(amount) ==> Use(l, userId, amount, now).result == Err(Insufficient)
    ensures InRange(amount) && !Exists(l, userId) ==>
              Use(l, userId, amount, now).result == Err(NotFound)
    ensures InRange(amount) && Exists(l, userId) && !InRange(PointOf(l, userId) - amount) ==>
              Use(l, userId, amount, now).result == Err(Insufficient)
    ensures Use(l, userId, amount, now).result.Err? ==> Use(l, userId, amount, now).ledger == l
  {
  }

  /** A successful use returns old - amount, writes that balance for this user
      only, and appends exactly one (userId, amount, USE) entry recording the
      used amount, not the total. */
  lemma UseEffect(l: Ledger, userId: int, amount: int, now: int)
    requires Use(l, userId, amount, now).result.Ok?
    ensures var s := Use(l, userId, amount, now);
            var entry := PointHistory(userId, amount, USE, now);
            && s.result.value == UserPoint(userId, PointOf(l, userId) - amount)
            && PointOf(s.ledger, userId) == PointOf(l, userId) - amount
            && s.ledger.points.Keys == l.points.Keys + {userId}
            && (forall v :: v != userId ==> PointOf(s.ledger, v) == PointOf(l, v))
            && s.ledger.histories == l.histories + [entry]
            && HistoriesOf(s.ledger.histories, userId) == HistoriesOf(l.histories, userId) + [entry]
            && (forall v :: v != userId ==> HistoriesOf(s.ledger.histories, v) == HistoriesOf(l.histories, v))
  {
    var entry := PointHistory(userId, amount, USE, now);
    forall v
      ensures HistoriesOf(l.histories + [entry], v)
           == HistoriesOf(l.histories, v) + (if v == userId then [entry] else [])
    {
      HistoriesOfAppend(l.histories, entry, v);
    }
  }

  /** Using the whole balance succeeds and leaves zero. */
  lemma UseWholeBalance(l: Ledger, userId: int, now: int)
    requires Exists(l, userId)
    requires InRange(PointOf(l, userId))
    ensures Use(l, userId, PointOf(l, userId), now).result == Ok(UserPoint(userId, 0))
    ensures PointOf(Use(l, userId, PointOf(l, userId), now).ledger, userId) == 0
  {
  }

  /** A use keeps every balance within [0, MAX], whatever the amount. */
  lemma UsePreservesPolicy(l: Ledger, userId: int, amount: int, now: int)
    requires WithinPolicy(l)
    ensures WithinPolicy(Use(l, userId, amount, now).ledger)
  {
  }

  // ---------------------------------------------------------------------------
  // Charge and use together

  /** Charging an amount and then using it restores the balance, and the
      user's history gains a CHARGE entry followed by a USE entry, both with
      that amount. */
  lemma ChargeThenUse(l: Ledger, userId: int, amount: int, t1: int, t2: int)
    requires Charge(l, userId, amount, t1).result.Ok?
    requires amount >= 0 && PointOf(l, userId) >= 0
    ensures var s1 := Charge(l, userId, amount, t1);
            var s2 := Use(s1.ledger, userId, amount, t2);
            && s2.result == Ok(UserPoint(userId, PointOf(l, userId)))
            && PointOf(s2.ledger, userId) == PointOf(l, userId)
            && HistoriesOf(s2.ledger.histories, userId)
               == HistoriesOf(l.histories, userId)
                  + [PointHistory(userId, amount, CHARGE, t1), PointHistory(userId, amount, USE, t2)]
  {
    var s1 := Charge(l, userId, amount, t1);
    ChargeEffect(l, userId, amount, t1);
    ExistsAlongPrefix(l, s1.ledger, userId);
    ChargeOutcome(l, userId, amount, t1);
    UseOutcome(s1.ledger, userId, amount, t2);
    UseEffect(s1.ledger, userId, amount, t2);
  }
}
