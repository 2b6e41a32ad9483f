# Point ledger — a Dafny model

This project models the point service of a small Spring application. Each user has a point balance. Each user also has an append-only history of CHARGE and USE entries. Every charge and use goes through a bounds policy that keeps the balance within `[0, 1,000,000]`.

The model has these parts:

- `policy.dfy` (`PointPolicy`): the `MAXIMUM_POINT` and `ZERO_POINT` constants.
- `validator.dfy` (`PointValidator`): the two range checks. Each returns `Pass` or `Fail(kind)`. The source's three `RuntimeException` messages become the three kinds `NotFound`, `OverCap` and `Insufficient`.
- `ledger.dfy` (`PointLedger`): both tables as one value, a `Ledger`.
  - The balance lookup, charge and use are functions of that value, written in the same order of steps as the service.
  - History lookup is the filter `HistoriesOf`, which the service calls as it is.
  - The lemmas state what each operation promises.
- `runs.dfy` (`PointRuns`): requests for one user applied one at a time. The per-user lock (`LockExecutor`) only serialises calls, so every concurrent schedule of those calls is one such run. The end states of the four concurrent tests in `PointServiceIntegrationTest` are proved here as statements about runs.
- `tables.dfy` (`Tables`) and `service.dfy` (`Service`): the balance table and the history table as classes that are updated in place. `PointService` holds both tables.
  - Its methods perform the source's steps one by one: read the history, read the balance, validate, overwrite the balance, append the entry.
  - Each method is proved to return, and to leave the tables in, exactly what the matching `PointLedger` function says. So every `PointLedger` and `PointRuns` lemma holds of the service.

Three details of the code shape the model:

- **Order of failures.** The service checks the amount (`PointService.java:40`, `:69`) before it checks that the user exists. So a charge of more than MAX on a user without history fails with `OverCap`, not `NotFound`. Likewise a use outside `[0, MAX]` fails with `Insufficient`. Only an amount that passes this first check can fail with `NotFound` (`ChargeOutcome`, `UseOutcome`).
- **Use check.** There is one use check, `[0, MAX]` or `Insufficient`. The service applies it twice: to the amount (`:69`) and to the new total (`:81`).
- **Negative charges.** The charge check has no floor, and the service does not reject a negative charge. Only the request layer's `@Min(0)` does. So `Charge` takes any amount, and only the lemmas that need `amount >= 0` require it. `NegativeChargeUnguarded` shows that the service alone would write a negative balance.

## Model

| member | source | states |
|---|---|---|
| PointPolicy.PolicyAmounts | src/main/java/io/hhplus/tdd/point/PointPolicy.java:9-12 | MAXIMUM_POINT is 1,000,000 and ZERO_POINT is 0; zero is below the cap, so the admitted range [0, MAX] is not empty and holds both ends |
| PointValidator.ValidatedChargePoint | src/main/java/io/hhplus/tdd/point/PointValidator.java:10-14 | the charge check fails exactly when the value exceeds MAX, and then always with OverCap |
| PointValidator.ValidatedUsePoint | src/main/java/io/hhplus/tdd/point/PointValidator.java:17-22 | the use check passes exactly on [0, MAX] and otherwise fails with Insufficient, also above the cap |
| PointValidator.ValidatorEdges | src/main/java/io/hhplus/tdd/point/PointValidator.java:10-22 | MAX passes both checks and MAX + 1 fails both, with OverCap and Insufficient; 0 passes the use check |
| PointValidator.NegativeValues | src/main/java/io/hhplus/tdd/point/PointValidator.java:10-22 | any negative value passes the charge check and fails the use check with Insufficient |
| PointValidator.DistinctFailureKinds | src/main/java/io/hhplus/tdd/point/PointValidator.java:12-19 | a value both checks reject gets OverCap from one and Insufficient from the other |
| PointLedger.PointOf | src/main/java/io/hhplus/tdd/point/PointService.java:50 | the balance read (also at lines 28 and 78): an id the balance table never wrote reads as 0, and while every stored balance is in [0, MAX] so is the one read |
| PointLedger.HistoriesOf | src/main/java/io/hhplus/tdd/point/PointService.java:32-34 | reading one user's history yields only that user's entries, and never more than the table holds |
| PointLedger.Exists | src/main/java/io/hhplus/tdd/point/PointService.java:44-47 | the existence check (also at lines 23-26 and 72-75): a user exists exactly when some history entry carries its id; the balance table plays no part |
| PointLedger.HistoriesOfMembers | src/main/java/io/hhplus/tdd/point/PointService.java:32-34 | the read holds every entry of that user and no entry of any other user |
| PointLedger.HistoriesOfConcat | src/main/java/io/hhplus/tdd/point/PointService.java:32-34 | reading a concatenation reads each part in turn, so the read keeps insertion order |
| PointLedger.HistoriesOfAppend | src/main/java/io/hhplus/tdd/point/PointService.java:60 | appending an entry extends exactly its own user's read, at the end |
| PointLedger.HistoriesOfOwn | src/test/java/io/hhplus/tdd/database/PointControllerTest.java:102-119 | a history of one user's entries reads back verbatim, in order |
| PointLedger.ExistsAlongPrefix | src/main/java/io/hhplus/tdd/point/PointService.java:44-48 | once a user exists it keeps existing as the history grows |
| PointLedger.FindUserPointById | src/main/java/io/hhplus/tdd/point/PointService.java:22-29 | lookup fails, always with NotFound, exactly when the user does not exist; a success is a snapshot of that user, in [0, MAX] while the table is |
| PointLedger.FindUserPointOutcome | src/main/java/io/hhplus/tdd/point/PointService.java:22-29 | lookup fails with NotFound exactly when the user has no history, whatever the balance table holds; otherwise it returns the balance table's snapshot |
| PointLedger.Charge | src/main/java/io/hhplus/tdd/point/PointService.java:37-64 | all or nothing: a failed charge leaves both tables as they were, and fails with NotFound only for a user without history; a successful one appends exactly the (userId, amount, CHARGE, now) entry, adds at most this user's key to the balance table, and returns the balance it stored |
| PointLedger.ChargeOutcome | src/main/java/io/hhplus/tdd/point/PointService.java:37-64 | a charge succeeds iff amount <= MAX, the user exists and old + amount <= MAX; the failures are OverCap (pre-check, even without history), NotFound, and OverCap on the total; a failure leaves both tables unchanged |
| PointLedger.ChargeEffect | src/main/java/io/hhplus/tdd/point/PointService.java:53-61 | a successful charge returns and stores old + amount for this user only, and appends exactly one (userId, amount, CHARGE) entry at the end; other users' balances and histories are unchanged |
| PointLedger.ChargePreservesPolicy | src/main/java/io/hhplus/tdd/point/PointService.java:53-57 | with a non-negative amount, a charge keeps every balance in [0, MAX] |
| PointLedger.NegativeChargeUnguarded | src/main/java/io/hhplus/tdd/point/PointValidator.java:10-14 | a charge of -1 on an existing user with a zero balance succeeds and writes -1, because the charge check has no floor |
| PointLedger.Use | src/main/java/io/hhplus/tdd/point/PointService.java:67-92 | all or nothing: a failed use leaves both tables as they were, and fails with NotFound only for a user without history; a successful one appends exactly the (userId, amount, USE, now) entry, adds at most this user's key to the balance table, and returns the balance it stored |
| PointLedger.UseOutcome | src/main/java/io/hhplus/tdd/point/PointService.java:67-92 | a use succeeds iff amount is in [0, MAX], the user exists and old - amount is in [0, MAX]; the failures are Insufficient (pre-check, even without history), NotFound, and Insufficient on the total; a failure changes nothing |
| PointLedger.UseEffect | src/main/java/io/hhplus/tdd/point/PointService.java:80-89 | a successful use returns and stores old - amount for this user only, and appends one (userId, amount, USE) entry carrying the used amount, not the total |
| PointLedger.UseWholeBalance | src/main/java/io/hhplus/tdd/point/PointService.java:80-84 | using the whole balance succeeds and leaves zero |
| PointLedger.UsePreservesPolicy | src/main/java/io/hhplus/tdd/point/PointService.java:80-84 | whatever the amount, a use keeps every balance in [0, MAX] |
| PointLedger.ChargeThenUse | src/main/java/io/hhplus/tdd/point/PointService.java:37-92 | charging an amount and then using it restores the balance and appends CHARGE then USE, both with that amount, to the user's history |
| PointRuns.Run | src/main/java/io/hhplus/tdd/point/PointService.java:42-62 | a sequential run of N requests yields exactly N results |
| PointRuns.CountsAddUp | src/test/java/io/hhplus/tdd/database/PointServiceIntegrationTest.java:161-183 | successCount + failCount equals the number of results |
| PointRuns.EntriesCount | src/main/java/io/hhplus/tdd/point/PointService.java:60 | a run appends one entry per successful request |
| PointRuns.ApplyFrame | src/main/java/io/hhplus/tdd/point/PointService.java:57 | one charge or use on a user leaves every other user's balance and history unchanged |
| PointRuns.RunBalance | src/test/java/io/hhplus/tdd/database/PointServiceIntegrationTest.java:118-147 | no lost update: the final balance is the initial one plus the successful charges minus the successful uses |
| PointRuns.RunHistory | src/main/java/io/hhplus/tdd/point/PointService.java:60 | the user's history gains exactly the successful requests' entries, in the order they were applied |
| PointRuns.RunOthersUnchanged | src/main/java/io/hhplus/tdd/point/PointService.java:84 | a run on one user never changes another user's balance or history |
| PointRuns.RunPreservesPolicy | src/main/java/io/hhplus/tdd/point/PointService.java:53-57 | with non-negative charge amounts, every run keeps every balance in [0, MAX] |
| PointRuns.ChargesRejected | src/main/java/io/hhplus/tdd/point/PointService.java:53-54 | once a charge of a no longer fits, every further charge of a fails with OverCap and nothing changes |
| PointRuns.UsesRejected | src/main/java/io/hhplus/tdd/point/PointService.java:80-81 | once the balance no longer covers a use of a, every further use of a fails with Insufficient and nothing changes |
| PointRuns.RepeatedCharges | src/test/java/io/hhplus/tdd/database/PointServiceIntegrationTest.java:149-187 | N charges of a: the first min(N, (MAX - balance) / a) succeed, the rest fail with OverCap, and the balance rises by a for each success |
| PointRuns.RepeatedUses | src/test/java/io/hhplus/tdd/database/PointServiceIntegrationTest.java:220-261 | N uses of a: the first min(N, balance / a) succeed, the rest fail with Insufficient, and the balance falls by a for each success |
| PointRuns.TwentyChargesScenario | src/test/java/io/hhplus/tdd/database/PointServiceIntegrationTest.java:118-147 | 20 charges of 100 on a user with one CHARGE entry of 100 and no balance written yet all succeed: the balance is 2,000 and the user has 21 entries |
| PointRuns.ChargesOverCapScenario | src/test/java/io/hhplus/tdd/database/PointServiceIntegrationTest.java:149-187 | 20 charges of MAX / 5 from zero: 5 succeed, 15 fail with OverCap, and the balance ends at MAX |
| PointRuns.UsesOverBalanceScenario | src/test/java/io/hhplus/tdd/database/PointServiceIntegrationTest.java:220-261 | 10 uses of 142 from 1,000: 7 succeed, 3 fail with Insufficient, and 6 remain |
| PointRuns.UsesFromUnwrittenScenario | src/test/java/io/hhplus/tdd/database/PointServiceIntegrationTest.java:189-218 | 10 uses of 100 on a user with one CHARGE entry of 100 and no balance written: none succeeds, every one fails with Insufficient, and the balance is 1,000 - 100 * 10 = 0 because it never moved (the 1,000 is a local of the test, never stored) |
| PointRuns.UsesDrainScenario | src/main/java/io/hhplus/tdd/point/PointService.java:80-84 | 10 uses of 250 from 1,000: exactly 4 succeed, 6 fail, and the balance ends at 0 |
| Tables.UserPointTable.SelectById | src/main/java/io/hhplus/tdd/point/PointService.java:50 | the read the service makes at lines 28, 50 and 78 returns a snapshot for the asked id: the stored balance, or 0 for an id never written |
| Tables.UserPointTable.InsertOrUpdate | src/main/java/io/hhplus/tdd/point/PointService.java:57 | overwrites exactly one user's balance and returns the new snapshot |
| Tables.PointHistoryTable.Insert | src/main/java/io/hhplus/tdd/point/PointService.java:60 | appends exactly one entry at the end of the history |
| Tables.PointHistoryTable.SelectAllByUserId | src/main/java/io/hhplus/tdd/point/PointService.java:44 | the read the service makes at lines 23, 33, 44 and 72 returns entries of the asked user only, and every one of them the table holds |
| Service.PointService.FindUserPointById | src/main/java/io/hhplus/tdd/point/PointService.java:22-29 | returns what PointLedger.FindUserPointById gives for the current tables and changes nothing |
| Service.PointService.FindHistories | src/main/java/io/hhplus/tdd/point/PointService.java:32-34 | returns the user's entries in insertion order, with no existence check, and changes nothing |
| Service.PointService.ChargeUserPoint | src/main/java/io/hhplus/tdd/point/PointService.java:37-64 | result and new tables are exactly PointLedger.Charge of the old tables; with a non-negative amount, 0 <= balance <= MAX is kept |
| Service.PointService.UsePoint | src/main/java/io/hhplus/tdd/point/PointService.java:67-92 | result and new tables are exactly PointLedger.Use of the old tables; 0 <= balance <= MAX is kept |

## Left out

- Concurrency. `LockExecutor.executeWithUserLock` (its lock map, `ReentrantLock` and release in `finally`) is modelled as running its body. Linearizability under the per-user lock is the assumption that turns concurrent calls into `PointRuns.Run`. It is not proved.
- The request layer. `PointController` does the routing and the `@Min` checks on id and amount; its charge and use endpoints are stubs. `ApiControllerAdvice` maps exceptions to HTTP responses. Neither holds ledger logic.
- Storage internals. The sources of `UserPointTable` and `PointHistoryTable` are not part of this model. They are modelled from how the service uses them: a balance map read with default zero, and an append-only sequence filtered by user id. Any delay they add, the history entry's own id, and `UserPoint`'s update timestamp are not modelled.
- Clock. `System.currentTimeMillis()` becomes the parameter `now`, which is stored in the history entry.
- 64-bit `long` arithmetic. The model uses unbounded integers. With the service's pre-check (`amount <= MAX`) and balances within [0, MAX], `amount + point` and `point - amount` cannot overflow. A caller passing huge negative charge amounts is excluded by the request layer's `@Min(0)`.
- The exception messages. Only their kinds are kept: `NotFound`, `OverCap` and `Insufficient`.
- Service.PointService.ChargeUserPoint: the invariant is promised only for non-negative amounts, because the service itself accepts negative ones; the request layer's `@Min(0)` is what rules them out.
