/** Timespec arithmetic of the event loop (src/loop.c:67-83, src/loop.c:119-121, src/loop.c:169-177). */
module Deadlines {

  const NANOS: int := 1_000_000_000
  const NANOS_PER_MS: int := 1_000_000
  const INT_MAX: int := 0x7FFF_FFFF

  datatype Timespec = Timespec(sec: int, nsec: int)

  predicate Normal(t: Timespec) {
    0 <= t.nsec < NANOS
  }

  function Nanos(t: Timespec): int {
    t.sec * NANOS + t.nsec
  }

  /** C division truncates toward zero. */
  function Quotient(a: int, b: int): int
    requires b > 0
  {
    if a >= 0 then a / b else -((-a) / b)
  }

  function Remainder(a: int, b: int): int
    requires b > 0
  {
    a - b * Quotient(a, b)
  }

  /** Conversion to a 32-bit `int`. */
  function CInt(x: int): int {
    (x + 0x8000_0000) % 0x1_0000_0000 - 0x8000_0000
  }

  /** The expiry `loop_add_timer` stores for a timer of `ms` milliseconds. */
  function Deadline(now: Timespec, ms: int): Timespec {
    var sec := now.sec + Quotient(ms, 1000);
    var nsec := Remainder(ms, 1000) * NANOS_PER_MS;
    if now.nsec + nsec >= NANOS then Timespec(sec + 1, now.nsec + (nsec - NANOS))
    else Timespec(sec, now.nsec + nsec)
  }

  /** When a timer was armed, and for how long. */
  datatype Alarm = Alarm(at: Timespec, ms: int)

  /** The expiry is exactly `ms` later; it is normalised exactly when the millisecond remainder does not borrow. */
  lemma DeadlineExact(now: Timespec, ms: int)
    requires Normal(now)
    ensures Nanos(Deadline(now, ms)) == Nanos(now) + ms * NANOS_PER_MS
    ensures Normal(Deadline(now, ms)) <==> now.nsec + Remainder(ms, 1000) * NANOS_PER_MS >= 0
    ensures ms >= 0 ==> Normal(Deadline(now, ms))
    ensures -NANOS < Deadline(now, ms).nsec < NANOS
  {
    RemainderRange(ms);
  }

  lemma RemainderRange(ms: int)
    ensures -1000 < Remainder(ms, 1000) < 1000
    ensures ms >= 0 ==> Remainder(ms, 1000) >= 0
  {}

  /** A repeat period of -1, read after the rate dropped, can leave an expiry that is not normalised. */
  lemma NegativePeriodUnnormalised()
    ensures !Normal(Deadline(Timespec(5, 0), -1))
  {}

  /** The test made in the timer pass. */
  predicate Expired(expiry: Timespec, now: Timespec) {
    expiry.sec < now.sec || (expiry.sec == now.sec && expiry.nsec < now.nsec)
  }

  /**
   For normalised expiries the test is exactly "earlier than now". For the others it never
   succeeds early, and fails only for expiries less than one second past.
   */
  lemma ExpiredExact(expiry: Timespec, now: Timespec)
    requires Normal(now) && -NANOS < expiry.nsec < NANOS
    ensures Normal(expiry) ==> (Expired(expiry, now) <==> Nanos(expiry) < Nanos(now))
    ensures Expired(expiry, now) ==> Nanos(expiry) < Nanos(now)
    ensures Nanos(expiry) - Remaining(expiry) < Nanos(now) ==> Expired(expiry, now)
  {}

  /** How much an expiry that is not normalised borrows from its seconds. */
  function Remaining(expiry: Timespec): int {
    if expiry.nsec < 0 then expiry.nsec else 0
  }

  /** The milliseconds to an expiry, as the sum of the two differences the loop computes. */
  function Apart(expiry: Timespec, now: Timespec): int {
    (expiry.sec - now.sec) * 1000 + Quotient(expiry.nsec - now.nsec, NANOS_PER_MS)
  }

  /** The loop's estimate of that: each difference is converted to `int`, and so is their sum. */
  function Estimate(expiry: Timespec, now: Timespec): int {
    CInt(CInt((expiry.sec - now.sec) * 1000) + CInt(Quotient(expiry.nsec - now.nsec, NANOS_PER_MS)))
  }

  /** Differences an `int` can hold. */
  predicate InIntRange(expiry: Timespec, now: Timespec) {
    -0x8000_0000 <= Apart(expiry, now) <= INT_MAX
  }

  lemma CIntMod(x: int) returns (q: int)
    ensures CInt(x) == x - q * 0x1_0000_0000
    ensures -0x8000_0000 <= CInt(x) <= INT_MAX
  {
    q := (x + 0x8000_0000) / 0x1_0000_0000;
  }

  /** Conversions in between do not matter. */
  lemma EstimateIsApart(expiry: Timespec, now: Timespec) returns (q: int)
    ensures Estimate(expiry, now) == Apart(expiry, now) - q * 0x1_0000_0000
    ensures q == 0 <==> InIntRange(expiry, now)
  {
    var a := CIntMod((expiry.sec - now.sec) * 1000);
    var b := CIntMod(Quotient(expiry.nsec - now.nsec, NANOS_PER_MS));
    var c := CIntMod(CInt((expiry.sec - now.sec) * 1000) + CInt(Quotient(expiry.nsec - now.nsec, NANOS_PER_MS)));
    q := a + b + c;
  }

  lemma ApartWithinOneMs(expiry: Timespec, now: Timespec)
    ensures -NANOS_PER_MS < Apart(expiry, now) * NANOS_PER_MS - (Nanos(expiry) - Nanos(now)) < NANOS_PER_MS
  {}

  /**
   For every expiry a timer can have, normalised or not, the estimate is strictly less than a millisecond off,
   exactly if an `int` can hold the difference.
   */
  lemma EstimateExactly(expiry: Timespec, now: Timespec)
    ensures -NANOS_PER_MS < Estimate(expiry, now) * NANOS_PER_MS - (Nanos(expiry) - Nanos(now)) < NANOS_PER_MS
            <==> InIntRange(expiry, now)
  {
    ApartWithinOneMs(expiry, now);
    var q := EstimateIsApart(expiry, now);
  }

  /** Not past by more than 2^31 ms, about 24 days. */
  predicate InSight(expiry: Timespec, now: Timespec) {
    Nanos(now) - Nanos(expiry) <= 0x8000_0000 * NANOS_PER_MS
  }

  /** An `int` holds the difference for every timer armed for a duration that is one, unless it is long past. */
  lemma InSightInRange(alarm: Alarm, now: Timespec)
    requires Normal(alarm.at) && Nanos(alarm.at) <= Nanos(now) && alarm.ms <= INT_MAX
    requires InSight(Deadline(alarm.at, alarm.ms), now)
    ensures InIntRange(Deadline(alarm.at, alarm.ms), now)
    ensures Nanos(Deadline(alarm.at, alarm.ms)) - Nanos(now) <= INT_MAX * NANOS_PER_MS
  {
    DeadlineExact(alarm.at, alarm.ms);
    ApartWithinOneMs(Deadline(alarm.at, alarm.ms), now);
  }

  /** A timer more than 24 days past: the estimate wraps, and `poll` waits for days although the timer is due. */
  lemma LongPastWraps()
    ensures var expiry, now := Timespec(0, 0), Timespec(2_147_484, 0);
            Expired(expiry, now) && !InSight(expiry, now) && !InIntRange(expiry, now)
            && IsTimeout(2_147_483_296, [expiry], now)
  {
    var expiry, now := Timespec(0, 0), Timespec(2_147_484, 0);
    assert [expiry][0] == expiry && Estimate(expiry, now) == 2_147_483_296;
  }

  function Max(a: int, b: int): int {
    if a > b then a else b
  }

  /** Timeout for `poll`: the least estimate, at most INT_MAX and at least zero. */
  ghost predicate IsTimeout(ms: int, expiries: seq<Timespec>, now: Timespec) {
    && 0 <= ms <= INT_MAX
    && (forall i :: 0 <= i < |expiries| ==> ms <= Max(0, Estimate(expiries[i], now)))
    && (ms == INT_MAX || exists i :: 0 <= i < |expiries| && ms == Max(0, Estimate(expiries[i], now)))
  }

  /** No listed alarm in sight is slept past by a millisecond. */
  lemma TimeoutBounded(ms: int, expiries: seq<Timespec>, now: Timespec, i: nat, alarm: Alarm)
    requires IsTimeout(ms, expiries, now) && i < |expiries| && expiries[i] == Deadline(alarm.at, alarm.ms)
    requires Normal(alarm.at) && Nanos(alarm.at) <= Nanos(now) && alarm.ms <= INT_MAX && InSight(expiries[i], now)
    ensures ms * NANOS_PER_MS < Max(0, Nanos(alarm.at) + alarm.ms * NANOS_PER_MS - Nanos(now)) + NANOS_PER_MS
  {
    DeadlineExact(alarm.at, alarm.ms);
    InSightInRange(alarm, now);
    EstimateExactly(expiries[i], now);
  }

  /** The earliest expiry in a list of expiries. */
  ghost predicate IsEarliest(e: int, expiries: seq<Timespec>) {
    && (forall i :: 0 <= i < |expiries| ==> e <= Nanos(expiries[i]))
    && (exists i :: 0 <= i < |expiries| && e == Nanos(expiries[i]))
  }

  /** The loop sleeps until within a millisecond of the earliest listed expiry, on either side. */
  lemma TimeoutAccurate(ms: int, expiries: seq<Timespec>, now: Timespec, earliest: int)
    requires forall i :: 0 <= i < |expiries| ==> InIntRange(expiries[i], now)
    requires IsTimeout(ms, expiries, now) && IsEarliest(earliest, expiries)
    requires earliest - Nanos(now) <= INT_MAX * NANOS_PER_MS
    ensures -NANOS_PER_MS < ms * NANOS_PER_MS - Max(0, earliest - Nanos(now)) < NANOS_PER_MS
  {
    var i :| 0 <= i < |expiries| && earliest == Nanos(expiries[i]);
    EstimateExactly(expiries[i], now);
    if ms != INT_MAX {
      var j :| 0 <= j < |expiries| && ms == Max(0, Estimate(expiries[j], now));
      EstimateExactly(expiries[j], now);
    }
  }
}
