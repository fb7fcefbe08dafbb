# Point wallet: balance record and point service

A Dafny model of the core of a per-user point wallet: two components (the
balance record and the point service) in four modules:

- **`UserPoints`** (`user_point.dfy`) models the immutable balance record
  `UserPoint(id, point, updateMillis)`. `Charge` rejects a non-positive amount,
  then rejects a charge that would take the balance above `MAX_AMOUNT`
  (1,000,000). The limit is strict, so reaching 1,000,000 exactly is allowed.
  `Use` rejects a non-positive amount, then rejects an amount above the
  balance. Using the whole balance is allowed. `Empty` is the record of a user
  never seen before. Each Java exception message becomes one `PointError`
  kind, and a call that would throw returns `Err`. Java `long` is the subset
  type `int64`. The arithmetic is over unbounded integers. `ChargeAsWritten`
  repeats the limit check with Java's wrapping 64-bit addition (see
  "## Findings").
- **`PointHistories`** (`point_history.dfy`) models the history entry
  `PointHistory(id, userId, amount, type, updateMillis)`. It also defines two
  views of a history sequence: `ForUser` gives one user's entries in insertion
  order, which is what the history store's `findAllById` returns, and
  `SignedSum` gives their signed total.
- **`PointServices`** (`point_service.dfy`) models the service as the class
  `PointService`. Its two stores are fields: `balances` (a map from user id to
  record) and `histories` (a sequence of entries). `GetPoint` and
  `GetAllHistory` read them. `Charge` reads the balance and validates it
  through `UserPoints.Charge`. Only after that does it append the history
  entry, then upsert the balance, in the same order as the code. The class
  invariant `Consistent` says each user's balance equals the signed total of
  that user's history. `Charge` preserves it whether the charge succeeds or
  fails.
- **`PointScenarios`** (`point_scenarios.dfy`) states what callers can rely on
  across calls. A consistent service's balance equals the history total.
  `ChargeRepeatedly` performs k charges of v to one user, one after another.
  This is the sequential reading of the multi-threaded charge test.

The clock (`System.currentTimeMillis()`) is a parameter `now`. One value
stands for every clock read within a single call, and no ordering claims are
made about it.

How the model relates to the draft code of `PointService.charge`
(src/main/java/io/hhplus/tdd/point/service/PointService.java:26-36):

- As written, every charge that passes validation fails with a
  NullPointerException before any write. `PointHistory.createHistory`
  (PointHistory.java:10-12) returns null, so `pointHistory.id()` at line 31
  throws. No history entry and no balance is ever saved, and the
  `return null` at line 35 is never reached. Invalid charges still fail at
  line 28 with the record's own errors, as in the model.
- The model's success path follows PointServiceTest.java:76-92 instead. It
  appends one CHARGE entry for `userId` with the requested amount, saves
  old balance + amount, and returns the saved balance.
- The code puts the history write (line 31) before the balance write
  (line 33). The model keeps that order. When calls run one at a time, the
  two orders cannot be told apart.

## Model

| member | source | states |
|---|---|---|
| `UserPoints.Empty` | src/main/java/io/hhplus/tdd/point/domain/UserPoint.java:12-14 | an unseen user's record carries the given id and point 0, which is within [0, MAX_AMOUNT] |
| `UserPoints.Charge` | src/main/java/io/hhplus/tdd/point/domain/UserPoint.java:16-27 | amount <= 0 fails NonPositiveCharge whatever the balance; a positive amount taking the sum above 1,000,000 fails ExceedsMaxAmount; success iff 0 < amount and sum <= 1,000,000 (so exactly 1,000,000 succeeds); success keeps the id, yields point + amount, and keeps an in-range balance in range |
| `UserPoints.Use` | src/main/java/io/hhplus/tdd/point/domain/UserPoint.java:29-40 | amount <= 0 fails NonPositiveUse before the balance is looked at; amount above the balance fails InsufficientPoint; success iff 0 < amount <= point; success keeps the id and yields point - amount, staying in range |
| `UserPoints.BoundPreserved` | src/main/java/io/hhplus/tdd/point/domain/UserPoint.java:16-40 | from a balance in [0, 1,000,000], any successful charge or use lands in [0, 1,000,000] |
| `UserPoints.UseWholeBalance` | src/main/java/io/hhplus/tdd/point/domain/UserPoint.java:35-39 | using exactly the whole (positive) balance succeeds and leaves 0 |
| `UserPoints.ChargeThenUse` | src/main/java/io/hhplus/tdd/point/domain/UserPoint.java:26-39 | on an in-range balance, after a successful charge of a, using a succeeds and restores the original point and id |
| `UserPoints.UseThenCharge` | src/main/java/io/hhplus/tdd/point/domain/UserPoint.java:26-39 | after a successful use of a on an in-range balance, charging a succeeds and restores the original point and id |
| `UserPoints.Wrap64` | src/main/java/io/hhplus/tdd/point/domain/UserPoint.java:22 | Java `long` addition: the wrapped value is congruent to the exact sum modulo 2^64 and equals it when the sum fits |
| `UserPoints.ChargeAsWritten` | src/main/java/io/hhplus/tdd/point/domain/UserPoint.java:16-27 | charge as Java runs it: amount <= 0 fails NonPositiveCharge; otherwise it fails ExceedsMaxAmount iff the wrapped 64-bit sum exceeds 1,000,000, and on success yields the same id with the wrapped sum as point |
| `UserPoints.ChargeAsWrittenDiverges` | src/main/java/io/hhplus/tdd/point/domain/UserPoint.java:22-26 | on an in-range balance, the code as written and the model's `Charge` differ exactly when 0 < amount and point + amount overflows a `long`, and there the code accepts the charge with a negative balance |
| `UserPoints.ChargeAsWrittenAgrees` | src/main/java/io/hhplus/tdd/point/domain/UserPoint.java:22-26 | whenever point + amount fits in a `long`, the 64-bit check as written and the model's `Charge` give the same outcome |
| `UserPoints.ChargeAsWrittenOverflows` | src/main/java/io/hhplus/tdd/point/domain/UserPoint.java:22-26 | charging Long.MAX_VALUE on balance 1 passes the check as written and yields Long.MIN_VALUE, which the model rejects with ExceedsMaxAmount |
| `PointHistories.ForUser` | src/main/java/io/hhplus/tdd/point/repository/PointHistoryRepository.java:12 | an entry is in a user's history iff it was saved and carries that user's id; never longer than the whole history |
| `PointHistories.ForUserAppend` | src/main/java/io/hhplus/tdd/point/repository/PointHistoryRepository.java:10-12 | a user's view of a concatenated history is the concatenation of the views, so insertion order is kept |
| `PointHistories.SignedSumAppend` | src/main/java/io/hhplus/tdd/point/service/PointService.java:30-33 | the signed total of a concatenated history is the sum of the totals |
| `PointHistories.AppendEntry` | src/main/java/io/hhplus/tdd/point/service/PointService.java:30-31 | saving one entry appends it to its own user's view and adds its delta to that user's total; every other user's view and total is unchanged |
| `PointServices.PointService.constructor` | src/main/java/io/hhplus/tdd/point/service/PointService.java:17-20 | both stores start empty, which satisfies the store invariant and the balance/history invariant |
| `PointServices.PointService.GetPoint` | src/main/java/io/hhplus/tdd/point/service/PointService.java:22-24 | returns exactly the stored record for the id, or point 0 with that id when none is stored; always in [0, 1,000,000]; reads only |
| `PointServices.PointService.GetAllHistory` | src/main/java/io/hhplus/tdd/point/service/PointService.java:42-44 | returns exactly the saved entries carrying that user id; reads only |
| `PointServices.PointService.SaveHistory` | src/main/java/io/hhplus/tdd/point/repository/PointHistoryRepository.java:10 | appends one entry with the next id and the given fields; balances unchanged |
| `PointServices.PointService.SaveOrUpdate` | src/main/java/io/hhplus/tdd/point/repository/UserPointRepository.java:9 | upserts the record for that id only; history unchanged |
| `PointServices.PointService.Charge` | src/main/java/io/hhplus/tdd/point/service/PointService.java:26-36 | outcome equals the record-level charge of the stored balance; a failed charge (amount <= 0, or sum above 1,000,000) writes neither store; a successful one stores old + amount under userId only, appends exactly one CHARGE entry of the requested amount for userId, leaves every other user's history unchanged, and preserves the balance/history invariant |
| `PointScenarios.BalanceMatchesHistory` | src/main/java/io/hhplus/tdd/point/service/PointService.java:27-33 | in a consistent service, the balance getPoint returns equals the signed total of the history getAllHistory returns |
| `PointScenarios.ChargeRepeatedly` | src/test/java/io/hhplus/tdd/point/ConcurrentTest.java:48-75 | k charges of v to one user, all within the limit, raise the balance by k·v and append exactly k CHARGE entries of v to that user's history, keeping the earlier entries as a prefix and every other user's balance and history unchanged |

## Left out

- Concurrency is not modelled: no per-user locks, no FIFO fairness, no thread pool. The service is modelled one call at a time, and `ChargeRepeatedly` is the linearised outcome of the concurrent test.
- `PointService.use` (PointService.java:38-40) is a stub that returns null. It is not modelled at the service level. The record-level `UserPoints.Use` is modelled.
- `PointHistory.createHistory` (PointHistory.java:10-12) is a stub that returns null. `PointHistory` is modelled as a plain datatype.
- Timestamps are not modelled as a clock. They are an opaque parameter `now`, and one value covers every clock read in one call.
- The repository implementations and in-memory tables are not part of this model. The stores are a map and a sequence. The history store's id policy is assumed to number entries 1, 2, 3, ..., and that counter is unbounded rather than a 64-bit `long`.
- Store I/O failures are not modelled because the interfaces declare none. The HTTP controller, JSON binding and the mapping from messages to HTTP statuses are not modelled either.
- `PointError` has one kind per exception. It does not model the Korean message strings.
- `PointServices.PointService.Charge`: does not reproduce the code as written, in which every valid charge throws a NullPointerException before any write because `PointHistory.createHistory` is a stub returning null. Its success path follows the service's unit test instead.
- `UserPoints.Charge`: does not model 64-bit wrap-around of `amount + point`, because the wrapped check is the defect described under "## Findings". `ChargeAsWritten` models it instead.

## Findings

| source | as written | input that shows it | evidently intended | confidence | as-written member | corrected member |
|---|---|---|---|---|---|---|
| src/main/java/io/hhplus/tdd/point/domain/UserPoint.java:22 | `amount + this.point > MAX_AMOUNT` is evaluated in 64-bit `long` and wraps | point 1, amount 9223372036854775807 (Long.MAX_VALUE): the sum wraps to Long.MIN_VALUE, the check passes, and the new record holds point Long.MIN_VALUE | reject with the limit error whenever the exact sum exceeds 1,000,000 | high; not executed | `UserPoints.ChargeAsWritten`, `UserPoints.ChargeAsWrittenOverflows`, `UserPoints.ChargeAsWrittenDiverges` | `UserPoints.Charge` |
