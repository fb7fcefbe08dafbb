/**
 * The point balance of one user: an immutable record (id, point, updateMillis)
 * whose charge and use operations return a new record or fail with one of
 * the documented errors. The wall clock is a parameter (`now`) and carries
 * no ordering claims.
 */
module UserPoints {

  /** Java `long`. */
  const LONG_MIN: int := -0x8000_0000_0000_0000
  const LONG_MAX: int := 0x7fff_ffff_ffff_ffff
  const TWO_64: int := 0x1_0000_0000_0000_0000
  type int64 = x: int | LONG_MIN <= x <= LONG_MAX

  /** The largest balance a user may hold. */
  const MAX_AMOUNT: int64 := 1_000_000

  datatype UserPoint = UserPoint(id: int64, point: int64, updateMillis: int64)

  /** One kind per exception message the record throws. */
  datatype PointError =
    | NonPositiveCharge   // charge amount <= 0
    | ExceedsMaxAmount    // charge would take the balance above MAX_AMOUNT
    | NonPositiveUse      // use amount <= 0
    | InsufficientPoint   // use amount above the balance

  datatype Result<T> = Ok(value: T) | Err(error: PointError)

  /** A balance the system is allowed to hold. */
  predicate InRange(point: int) {
    0 <= point <= MAX_AMOUNT
  }

  /** The balance of a user never seen before. */
  function Empty(id: int64, now: int64): (r: UserPoint)
    ensures r.id == id && r.point == 0 && InRange(r.point)
  {
    UserPoint(id, 0, now)
  }

  /**
   * Credit `amount`. The non-positive check comes first, then the limit
   * check, which is strict: reaching MAX_AMOUNT exactly is allowed. The sum
   * is taken over unbounded integers; `ChargeAsWritten` below is the same
   * operation with Java's wrapping `long` addition.
   */
  function Charge(p: UserPoint, amount: int64, now: int64): (r: Result<UserPoint>)
    ensures amount <= 0 ==> r == Err(NonPositiveCharge)
    ensures 0 < amount && MAX_AMOUNT < p.point + amount ==> r == Err(ExceedsMaxAmount)
    ensures r.Ok? <==> 0 < amount && p.point + amount <= MAX_AMOUNT
    ensures r.Ok? ==> r.value.id == p.id && r.value.point == p.point + amount && r.value.updateMillis == now
    ensures r.Ok? && InRange(p.point) ==> InRange(r.value.point) && p.point < r.value.point
  {
    if amount <= 0 then Err(NonPositiveCharge)
    else if amount + p.point > MAX_AMOUNT then Err(ExceedsMaxAmount)
    else Ok(UserPoint(p.id, p.point + amount, now))
  }

  /**
   * Debit `amount`. The non-positive check comes before the balance check,
   * and using exactly the whole balance is allowed.
   */
  function Use(p: UserPoint, amount: int64, now: int64): (r: Result<UserPoint>)
    ensures amount <= 0 ==> r == Err(NonPositiveUse)
    ensures 0 < amount && p.point < amount ==> r == Err(InsufficientPoint)
    ensures r.Ok? <==> 0 < amount <= p.point
    ensures r.Ok? ==> r.value.id == p.id && r.value.point == p.point - amount && r.value.updateMillis == now
    ensures r.Ok? && InRange(p.point) ==> InRange(r.value.point) && r.value.point < p.point
  {
    if amount <= 0 then Err(NonPositiveUse)
    else if amount > p.point then Err(InsufficientPoint)
    else Ok(UserPoint(p.id, p.point - amount, now))
  }

  /**
   * Every successful charge or use keeps a balance inside [0, MAX_AMOUNT].
   * The contracts of `Charge` and `Use` already carry this; the lemma is the
   * invariant stated on its own, for both operations at once.
   */
  lemma BoundPreserved(p: UserPoint, amount: int64, now: int64)
    requires InRange(p.point)
    ensures Charge(p, amount, now).Ok? ==> InRange(Charge(p, amount, now).value.point)
    ensures Use(p, amount, now).Ok? ==> InRange(Use(p, amount, now).value.point)
  {
  }

  /** Using the whole balance succeeds and leaves nothing. */
  lemma UseWholeBalance(p: UserPoint, now: int64)
    requires 0 < p.point
    ensures Use(p, p.point, now) == Ok(UserPoint(p.id, 0, now))
  {
  }

  /** Using what a successful charge added restores the original balance. */
  lemma ChargeThenUse(p: UserPoint, amount: int64, now: int64, later: int64)
    requires InRange(p.point)
    requires Charge(p, amount, now).Ok?
    ensures Use(Charge(p, amount, now).value, amount, later) == Ok(p.(updateMillis := later))
  {
  }

  /** Charging what a successful use removed restores the original balance. */
  lemma UseThenCharge(p: UserPoint, amount: int64, now: int64, later: int64)
    requires InRange(p.point)
    requires Use(p, amount, now).Ok?
    ensures Charge(Use(p, amount, now).value, amount, later) == Ok(p.(updateMillis := later))
  {
  }

  // ---------------------------------------------------------------------
  // The limit check as the Java code performs it, in 64-bit arithmetic.

  /** Two's-complement wrap-around of a mathematical integer into a `long`. */
  function Wrap64(x: int): (r: int64)
    ensures (x - r) % TWO_64 == 0
    ensures LONG_MIN <= x <= LONG_MAX ==> r == x
  {
    (x - LONG_MIN) % TWO_64 + LONG_MIN
  }

  /** `Charge` with the sums `amount + point` computed as wrapping `long`s. */
  function ChargeAsWritten(p: UserPoint, amount: int64, now: int64): (r: Result<UserPoint>)
    ensures amount <= 0 ==> r == Err(NonPositiveCharge)
    ensures 0 < amount && MAX_AMOUNT < Wrap64(amount + p.point) ==> r == Err(ExceedsMaxAmount)
    ensures r.Ok? <==> 0 < amount && Wrap64(amount + p.point) <= MAX_AMOUNT
    ensures r.Ok? ==> r.value == UserPoint(p.id, Wrap64(p.point + amount), now)
  {
    if amount <= 0 then Err(NonPositiveCharge)
    else if Wrap64(amount + p.point) > MAX_AMOUNT then Err(ExceedsMaxAmount)
    else Ok(UserPoint(p.id, Wrap64(p.point + amount), now))
  }

  /** While the sum fits in a `long`, the code as written and the model agree. */
  lemma ChargeAsWrittenAgrees(p: UserPoint, amount: int64, now: int64)
    requires p.point + amount <= LONG_MAX
    ensures ChargeAsWritten(p, amount, now) == Charge(p, amount, now)
  {
  }

  /**
   * On an in-range balance, the code as written and the model part ways
   * exactly when the sum overflows a `long`: there the wrapped sum is
   * negative, the limit check passes, and a negative balance is returned
   * where the model rejects the charge.
   */
  lemma ChargeAsWrittenDiverges(p: UserPoint, amount: int64, now: int64)
    requires InRange(p.point)
    ensures ChargeAsWritten(p, amount, now) != Charge(p, amount, now) <==> 0 < amount && LONG_MAX < p.point + amount
    ensures 0 < amount && LONG_MAX < p.point + amount ==>
              ChargeAsWritten(p, amount, now).Ok? && ChargeAsWritten(p, amount, now).value.point < 0
  {
  }

  /**
   * A charge of Long.MAX_VALUE on a balance of 1 overflows to a negative
   * sum, passes the limit check and yields a balance of Long.MIN_VALUE.
   */
  lemma ChargeAsWrittenOverflows()
    ensures ChargeAsWritten(UserPoint(1, 1, 0), LONG_MAX, 0) == Ok(UserPoint(1, LONG_MIN, 0))
    ensures Charge(UserPoint(1, 1, 0), LONG_MAX, 0) == Err(ExceedsMaxAmount)
    ensures InRange(1) && !InRange(LONG_MIN)
  {
  }
}
