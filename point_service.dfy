/**
 * The point service, run one call at a time. Its two collaborators, the
 * balance store (`UserPointRepository`) and the history store
 * (`PointHistoryRepository`), are the fields `balances` and `histories`;
 * `SaveOrUpdate` and `SaveHistory` are their write operations and
 * `GetPoint` / `GetAllHistory` read them.
 */
module PointServices {
  import opened UserPoints
  import opened PointHistories

  class PointService {
    /** Balance store: user id to its last saved record; an absent id has point 0. */
    var balances: map<int64, UserPoint>
    /** History store: every entry ever saved, in insertion order. */
    var histories: seq<PointHistory>

    /**
     * Every stored record sits under its own id with a balance in
     * [0, MAX_AMOUNT]; the history store numbers entries 1, 2, 3, ... and
     * every entry records a positive amount.
     */
    ghost predicate Valid()
      reads this
    {
      && (forall id :: id in balances ==> balances[id].id == id && InRange(balances[id].point))
      && (forall i :: 0 <= i < |histories| ==> histories[i].id == i + 1 && 0 < histories[i].amount)
    }

    /** The balance the store holds for `userId`, 0 when it holds none. */
    ghost function PointOf(userId: int64): int
      reads this
    {
      if userId in balances then balances[userId].point else 0
    }

    /**
     * The central invariant: each user's balance is the signed total of that
     * user's history entries.
     */
    ghost predicate Consistent()
      reads this
    {
      forall userId :: PointOf(userId) == SignedSum(ForUser(histories, userId))
    }

    /** Both stores start empty. */
    constructor ()
      ensures Valid() && Consistent()
      ensures balances == map[] && histories == []
    {
      balances := map[];
      histories := [];
    }

    /** `getPoint`: the stored record, or an empty one for an unseen id. */
    function GetPoint(userId: int64, now: int64): (r: UserPoint)
      reads this
      requires Valid()
      ensures r.id == userId && InRange(r.point) && r.point == PointOf(userId)
      ensures userId in balances ==> r == balances[userId]
      ensures userId !in balances ==> r == Empty(userId, now)
    {
      if userId in balances then balances[userId] else Empty(userId, now)
    }

    /** `getAllHistory`: exactly the entries of `userId`, in insertion order. */
    function GetAllHistory(userId: int64): (r: seq<PointHistory>)
      reads this
      ensures |r| <= |histories|
      ensures forall h :: h in r <==> h in histories && h.userId == userId
    {
      ForUser(histories, userId)
    }

    /** History store `save`: the store assigns the next id. */
    method SaveHistory(userId: int64, amount: int64, kind: TransactionType, now: int64)
      returns (h: PointHistory)
      requires Valid() && 0 < amount
      modifies this
      ensures Valid()
      ensures h == PointHistory(|old(histories)| + 1, userId, amount, kind, now)
      ensures histories == old(histories) + [h] && balances == old(balances)
    {
      h := PointHistory(|histories| + 1, userId, amount, kind, now);
      histories := histories + [h];
    }

    /** Balance store `saveOrUpdate`: upsert a fresh record for `id`. */
    method SaveOrUpdate(id: int64, point: int64, now: int64) returns (p: UserPoint)
      requires Valid() && InRange(point)
      modifies this
      ensures Valid()
      ensures p == UserPoint(id, point, now)
      ensures balances == old(balances)[id := p] && histories == old(histories)
    {
      p := UserPoint(id, point, now);
      balances := balances[id := p];
    }

    /**
     * `charge`: read the balance, validate through `UserPoints.Charge`, and
     * only then write the history entry and the new balance, in that order.
     * As written, a charge that passes validation never gets this far: the
     * stub `PointHistory.createHistory` returns null, so `pointHistory.id()`
     * throws a NullPointerException before either store is written. The
     * success path here is the one the service's unit test expects: one
     * CHARGE entry for `userId` with the requested amount, the balance saved
     * as old + amount, and the saved balance returned. Every
     * `System.currentTimeMillis()` of one call is the one `now`.
     * The Java sum `amount + point` wraps for very large amounts; see
     * `UserPoints.ChargeAsWritten`.
     */
    method Charge(userId: int64, amount: int64, now: int64) returns (r: Result<UserPoint>)
      requires Valid()
      modifies this
      ensures Valid()
      ensures old(Consistent()) ==> Consistent()
      // the outcome is the record-level charge of the stored balance
      ensures r == UserPoints.Charge(old(GetPoint(userId, now)), amount, now)
      ensures r.Err? <==> amount <= 0 || MAX_AMOUNT < old(PointOf(userId)) + amount
      ensures amount <= 0 ==> r == Err(NonPositiveCharge)
      ensures 0 < amount && MAX_AMOUNT < old(PointOf(userId)) + amount ==> r == Err(ExceedsMaxAmount)
      // a failed charge writes nothing
      ensures r.Err? ==> balances == old(balances) && histories == old(histories)
      // a successful one saves old balance + amount under userId, and nothing else
      ensures r.Ok? ==> r.value == UserPoint(userId, old(PointOf(userId)) + amount, now)
      ensures r.Ok? ==> balances == old(balances)[userId := r.value]
      // ... and appends exactly one CHARGE entry of the requested amount
      ensures r.Ok? ==> histories == old(histories) + [PointHistory(|old(histories)| + 1, userId, amount, CHARGE, now)]
      ensures r.Ok? ==> GetAllHistory(userId) == old(GetAllHistory(userId)) + [histories[|histories| - 1]]
      ensures forall other :: other != userId ==> GetAllHistory(other) == old(GetAllHistory(other))
    {
      var current := GetPoint(userId, now);
      var updated := UserPoints.Charge(current, amount, now);
      if updated.Err? {
        return Err(updated.error);
      }
      ghost var before := histories;
      var h := SaveHistory(userId, amount, CHARGE, now);
      var saved := SaveOrUpdate(updated.value.id, updated.value.point, now);
      r := Ok(saved);

      forall other
        ensures ForUser(histories, other) == ForUser(before, other) + (if other == userId then [h] else [])
        ensures SignedSum(ForUser(histories, other))
             == SignedSum(ForUser(before, other)) + (if other == userId then amount as int else 0)
      {
        AppendEntry(before, h, other);
      }
    }
  }
}
