/** Validity windows of client assertions, computed in 64-bit seconds.

`int64` is checked for overflow on every operation, so verification also shows that
none of these computations wraps around.  The specifications are over unbounded
integers.  */
module AssertionWindow {

  newtype int64 = x: int | -0x8000_0000_0000_0000 <= x < 0x8000_0000_0000_0000

  const MAX_INT64: int64 := 0x7FFF_FFFF_FFFF_FFFF
  const MIN_INT64: int64 := -0x8000_0000_0000_0000

  const SECOND: int64 := 1_000_000_000
  const MAX_ASSERTION_LIFETIME: int64 := 300

  /** Not issued in the future and not expired, each with a tolerance. */
  predicate Window(issuedAt: int, expiresAt: int, now: int, tolerance: int) {
    issuedAt <= now + tolerance && expiresAt > now - tolerance
  }

  method ExceedsAssertionLifetime(issuedAt: int64, expiresAt: int64) returns (exceeds: bool)
    ensures exceeds <==> expiresAt as int - issuedAt as int > 300
  {
    exceeds := issuedAt <= MAX_INT64 - MAX_ASSERTION_LIFETIME && expiresAt > issuedAt + MAX_ASSERTION_LIFETIME;
  }

  /** The two clamped deadlines.  They decide the window exactly, except for an
      expiry at the least 64-bit instant: clamping then hides that it is not over. */
  method InsideDeadlines(issuedAt: int64, expiresAt: int64, now: int64, tolerance: int64) returns (inside: bool)
    requires tolerance >= 0
    ensures inside <==>
            && Window(issuedAt as int, expiresAt as int, now as int, tolerance as int)
            && !(expiresAt == MIN_INT64 && now as int - tolerance as int < MIN_INT64 as int)
    ensures expiresAt > issuedAt ==>
              (inside <==> Window(issuedAt as int, expiresAt as int, now as int, tolerance as int))
  {
    var issuedDeadline := now;
    if now <= MAX_INT64 - tolerance {
      issuedDeadline := issuedDeadline + tolerance;
    } else {
      issuedDeadline := MAX_INT64;
    }
    var expiryDeadline := now;
    if now >= MIN_INT64 + tolerance {
      expiryDeadline := expiryDeadline - tolerance;
    } else {
      expiryDeadline := MIN_INT64;
    }
    inside := issuedAt <= issuedDeadline && expiresAt > expiryDeadline;
  }

  /** The times that claims validation lets through. */
  predicate ValidTimes(issuedAt: int64, expiresAt: int64) {
    0 < expiresAt as int - issuedAt as int <= 300
  }

  /** The time checks of VerifyClientAssertion, its claims validation included;
      `tolerance` is in nanoseconds. */
  method VerifyTimes(issuedAt: int64, expiresAt: int64, now: int64, tolerance: int64) returns (accepted: bool)
    ensures accepted <==>
            && tolerance >= 0
            && 0 < expiresAt as int - issuedAt as int <= 300
            && Window(issuedAt as int, expiresAt as int, now as int, tolerance as int / 1_000_000_000)
  {
    if expiresAt <= issuedAt { return false; }
    var exceeds := ExceedsAssertionLifetime(issuedAt, expiresAt);
    if exceeds { return false; }
    if tolerance < 0 { return false; }
    accepted := InsideDeadlines(issuedAt, expiresAt, now, tolerance / SECOND);
  }

  /** The Service's own limits, as its options are checked at construction. */
  predicate ServiceLimits(skew: int64, lifetime: int64) {
    0 <= skew <= 30 && 1 <= lifetime <= 300
  }

  /** The window the Service enforces: the unbounded one, minus assertions issued
      within one lifetime of the greatest 64-bit instant. */
  predicate ServiceWindow(issuedAt: int64, expiresAt: int64, now: int64, skew: int64, lifetime: int64) {
    && 0 < expiresAt as int - issuedAt as int <= lifetime as int
    && Window(issuedAt as int, expiresAt as int, now as int, skew as int)
    && issuedAt as int <= MAX_INT64 as int - lifetime as int
  }

  method InsideServiceWindow(issuedAt: int64, expiresAt: int64, now: int64, skew: int64, lifetime: int64) returns (inside: bool)
    requires ServiceLimits(skew, lifetime)
    ensures inside <==> ServiceWindow(issuedAt, expiresAt, now, skew, lifetime)
    ensures inside ==> 0 < expiresAt as int - issuedAt as int <= lifetime as int
  {
    if expiresAt <= issuedAt || issuedAt > MAX_INT64 - lifetime || expiresAt > issuedAt + lifetime {
      return false;
    }
    inside := InsideDeadlines(issuedAt, expiresAt, now, skew);
  }

  /** The overflow guard does reject assertions that are inside their window. */
  lemma GuardRejectsAtTheEndOfTime(lifetime: int64)
    requires 2 <= lifetime <= 300
    ensures exists issuedAt: int64, expiresAt: int64, now: int64 ::
              && 0 < expiresAt as int - issuedAt as int <= lifetime as int
              && Window(issuedAt as int, expiresAt as int, now as int, 0)
              && !ServiceWindow(issuedAt, expiresAt, now, 0, lifetime)
  {
    var issuedAt: int64 := MAX_INT64 - 1;
    assert Window(issuedAt as int, MAX_INT64 as int, issuedAt as int, 0);
    assert !ServiceWindow(issuedAt, MAX_INT64, issuedAt, 0, lifetime);
  }
}
