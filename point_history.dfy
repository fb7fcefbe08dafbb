/**
 * History entries and the two views of a history sequence the service relies
 * on: the entries of one user, in insertion order (what the history store's
 * `findAllById` returns), and the signed total they add up to.
 */
module PointHistories {
  import opened UserPoints

  datatype TransactionType = CHARGE | USE

  /** One recorded mutation; `amount` is the positive magnitude requested. */
  datatype PointHistory = PointHistory(
    id: nat,   // assigned by the history store; its 64-bit counter is taken as unbounded
    userId: int64,
    amount: int64,
    kind: TransactionType,
    updateMillis: int64)

  /** The change an entry makes to its user's balance. */
  function Delta(h: PointHistory): int {
    match h.kind
    case CHARGE => h.amount as int
    case USE => -(h.amount as int)
  }

  /** The entries of `hs` that belong to `userId`, in the order of `hs`. */
  function ForUser(hs: seq<PointHistory>, userId: int64): (r: seq<PointHistory>)
    ensures |r| <= |hs|
    ensures forall h :: h in r <==> h in hs && h.userId == userId
  {
    if hs == [] then []
    else if hs[0].userId == userId then [hs[0]] + ForUser(hs[1..], userId)
    else ForUser(hs[1..], userId)
  }

  /** The signed total of a history: CHARGE counts up, USE counts down. */
  function SignedSum(hs: seq<PointHistory>): int {
    if hs == [] then 0 else Delta(hs[0]) + SignedSum(hs[1..])
  }

  /** Filtering distributes over concatenation, so appending keeps the order. */
  lemma {:induction false} ForUserAppend(a: seq<PointHistory>, b: seq<PointHistory>, userId: int64)
    ensures ForUser(a + b, userId) == ForUser(a, userId) + ForUser(b, userId)
  {
    if a != [] {
      assert (a + b)[0] == a[0];
      assert (a + b)[1..] == a[1..] + b;
      ForUserAppend(a[1..], b, userId);
    } else {
      assert a + b == b;
    }
  }

  /** The signed total of a concatenation is the sum of the totals. */
  lemma {:induction false} SignedSumAppend(a: seq<PointHistory>, b: seq<PointHistory>)
    ensures SignedSum(a + b) == SignedSum(a) + SignedSum(b)
  {
    if a != [] {
      assert (a + b)[0] == a[0];
      assert (a + b)[1..] == a[1..] + b;
      SignedSumAppend(a[1..], b);
    } else {
      assert a + b == b;
    }
  }

  /**
   * Appending one entry to a history adds its delta to the total of its own
   * user and leaves the total of every other user as it was.
   */
  lemma AppendEntry(hs: seq<PointHistory>, e: PointHistory, userId: int64)
    ensures ForUser(hs + [e], userId) == ForUser(hs, userId) + (if e.userId == userId then [e] else [])
    ensures SignedSum(ForUser(hs + [e], userId))
         == SignedSum(ForUser(hs, userId)) + (if e.userId == userId then Delta(e) else 0)
  {
    ForUserAppend(hs, [e], userId);
    assert ForUser([e], userId) == if e.userId == userId then [e] else [];
    SignedSumAppend(ForUser(hs, userId), ForUser([e], userId));
  }
}
