/**
 * What callers of the service can rely on across several calls: the
 * balance/history link, and the outcome of one user receiving k charges of
 * the same value one after another (the linearised reading of the
 * multi-threaded charge test).
 */
module PointScenarios {
  import opened UserPoints
  import opened PointHistories
  import opened PointServices

  /** In a consistent service, a user's balance is the total of their history. */
  lemma BalanceMatchesHistory(service: PointService, userId: int64, now: int64)
    requires service.Valid() && service.Consistent()
    ensures service.GetPoint(userId, now).point == SignedSum(service.GetAllHistory(userId))
  {
  }

  /** One more charge of `v` after `i < k` of them still stays below k * v. */
  lemma NextChargeFits(i: nat, k: nat, v: int)
    requires i < k && 0 < v
    ensures i * v + v == (i + 1) * v <= k * v
  {
  }

  /**
   * `k` charges of `v` to `userId` that all stay within MAX_AMOUNT raise the
   * balance by k * v and add exactly k entries to the user's history, each a
   * CHARGE of `v`; every other user's balance and history are untouched.
   */
  method ChargeRepeatedly(service: PointService, userId: int64, v: int64, k: nat, now: int64)
    requires service.Valid()
    requires 0 < v && service.PointOf(userId) + k * v <= MAX_AMOUNT
    modifies service
    ensures service.Valid()
    ensures old(service.Consistent()) ==> service.Consistent()
    ensures service.GetPoint(userId, now).point == old(service.PointOf(userId)) + k * v
    ensures |service.GetAllHistory(userId)| == |old(service.GetAllHistory(userId))| + k
    ensures service.GetAllHistory(userId)[..|old(service.GetAllHistory(userId))|] == old(service.GetAllHistory(userId))
    ensures forall j :: |old(service.GetAllHistory(userId))| <= j < |service.GetAllHistory(userId)|
                        ==> service.GetAllHistory(userId)[j].kind == CHARGE && service.GetAllHistory(userId)[j].amount == v
    ensures forall other :: other != userId ==> service.GetAllHistory(other) == old(service.GetAllHistory(other))
    ensures forall other :: other != userId ==> service.PointOf(other) == old(service.PointOf(other))
  {
    ghost var start := service.GetAllHistory(userId);
    ghost var point0 := service.PointOf(userId);
    var i := 0;
    while i < k
      invariant 0 <= i <= k
      invariant service.Valid()
      invariant old(service.Consistent()) ==> service.Consistent()
      invariant service.PointOf(userId) == point0 + i * v
      invariant |service.GetAllHistory(userId)| == |start| + i
      invariant service.GetAllHistory(userId)[..|start|] == start
      invariant forall j :: |start| <= j < |service.GetAllHistory(userId)|
                           ==> service.GetAllHistory(userId)[j].kind == CHARGE && service.GetAllHistory(userId)[j].amount == v
      invariant forall other :: other != userId ==> service.GetAllHistory(other) == old(service.GetAllHistory(other))
      invariant forall other :: other != userId ==> service.PointOf(other) == old(service.PointOf(other))
    {
      ghost var hs := service.GetAllHistory(userId);
      NextChargeFits(i, k, v);
      var r := service.Charge(userId, v, now);
      assert r.Ok?;
      assert service.GetAllHistory(userId) == hs + [service.histories[|service.histories| - 1]];
      i := i + 1;
    }
  }
}
