/** Arithmetic of the login throttle: the capped exponential backoff and the idle window,
    both turned into int64 nanoseconds the way Go's time.Duration does it. */
module Backoff {

  const TWO_63: int := 0x8000_0000_0000_0000
  const TWO_64: int := 0x1_0000_0000_0000_0000

  /** One minute in nanoseconds. */
  const MINUTE: int := 60_000_000_000

  /** The largest number of whole minutes an int64 nanosecond duration can hold. */
  const MAX_MINUTES: int := 153_722_867

  datatype Config = Config(maxAttempts: int, window: int, base: int, max: int)

  /** Every configuration in force has four positive fields. */
  type LiveConfig = c: Config | c.maxAttempts > 0 && c.window > 0 && c.base > 0 && c.max > 0
    witness Config(5, 15, 1, 64)

  /** Two's-complement reduction of a mathematical integer to int64. */
  function Wrap(x: int): (r: int)
    ensures -TWO_63 <= r < TWO_63
    ensures -TWO_63 <= x < TWO_63 ==> r == x
  {
    (x + TWO_63) % TWO_64 - TWO_63
  }

  function Pow2(n: nat): (p: int)
    ensures p >= 1
  {
    if n == 0 then 1 else 2 * Pow2(n - 1)
  }

  /** The lockout length in minutes at a backoff step. */
  function Lockout(c: LiveConfig, step: nat): int {
    var lockout := c.base * Pow2(step);
    if lockout > c.max then c.max else lockout
  }

  /** The lockout as a time.Duration. */
  function LockoutNanos(c: LiveConfig, step: nat): int {
    Wrap(Lockout(c, step) * MINUTE)
  }

  /** The idle window as a time.Duration. */
  function WindowNanos(c: LiveConfig): int {
    Wrap(Wrap(Wrap(c.window * 2) * c.max) * MINUTE)
  }

  /** The window in minutes, without any machine arithmetic. */
  function WindowMinutes(c: LiveConfig): (w: int)
    ensures w >= 2 * c.max && w >= 2 * c.window
  {
    Product(c.window, c.max);
    2 * c.window * c.max
  }

  /** Configurations whose window fits an int64 duration. */
  predicate Fits(c: LiveConfig) {
    WindowMinutes(c) <= MAX_MINUTES
  }

  lemma Product(x: int, y: int)
    requires x >= 1 && y >= 1
    ensures 2 * x * y >= 2 * x && 2 * x * y >= 2 * y
  {
    assert 2 * x * y - 2 * x == 2 * x * (y - 1);
    assert 2 * x * y - 2 * y == 2 * y * (x - 1);
  }

  /** The lockout stays between one minute and the cap. */
  lemma LockoutBounds(c: LiveConfig, step: nat)
    ensures 1 <= Lockout(c, step) <= c.max
  {
    assert c.base * Pow2(step) >= 1;
  }

  /** Each step doubles the lockout until the cap. */
  lemma LockoutDoubles(c: LiveConfig, step: nat)
    ensures Lockout(c, step + 1) == if 2 * Lockout(c, step) > c.max then c.max else 2 * Lockout(c, step)
  {
    assert c.base * Pow2(step + 1) == 2 * (c.base * Pow2(step));
  }

  lemma {:induction false} LockoutMonotone(c: LiveConfig, s: nat, t: nat)
    requires s <= t
    ensures Lockout(c, s) <= Lockout(c, t)
  {
    if s == t {
    } else {
      LockoutMonotone(c, s, t - 1);
      LockoutBounds(c, t - 1);
      LockoutDoubles(c, t - 1);
    }
  }

  /** The total lockout, in minutes, of the first k steps. */
  function TotalLockout(c: LiveConfig, k: nat): int {
    if k == 0 then 0 else TotalLockout(c, k - 1) + Lockout(c, k - 1)
  }

  lemma Distribute(x: int, y: int)
    ensures x * (2 * y) == 2 * (x * y)
    ensures x * (y - 1) == x * y - x
  {
  }

  /** While the cap is not reached the waits add up to a geometric sum. */
  lemma {:induction false} TotalLockoutUncapped(c: LiveConfig, k: nat)
    requires k > 0 ==> c.base * Pow2(k - 1) <= c.max
    ensures TotalLockout(c, k) == c.base * (Pow2(k) - 1)
  {
    Distribute(c.base, Pow2(k));
    if k == 0 {
    } else {
      var p := Pow2(k - 1);
      Distribute(c.base, p);
      if k > 1 {
        Distribute(c.base, Pow2(k - 2));
        assert c.base * Pow2(k - 2) >= 0;
      }
      TotalLockoutUncapped(c, k - 1);
    }
  }

  /** The window is computed without overflow exactly for the configurations that fit. */
  lemma WindowExact(c: LiveConfig)
    ensures WindowNanos(c) == WindowMinutes(c) * MINUTE <==> Fits(c)
  {
    if Fits(c) {
      assert c.window * 2 * c.max == WindowMinutes(c);
    } else {
      assert WindowMinutes(c) * MINUTE >= TWO_63;
    }
  }

  /** A configuration that fits never overflows a lockout either. */
  lemma LockoutExact(c: LiveConfig, step: nat)
    requires Fits(c)
    ensures LockoutNanos(c, step) == Lockout(c, step) * MINUTE
    ensures MINUTE <= LockoutNanos(c, step) <= c.max * MINUTE < WindowNanos(c)
  {
    LockoutBounds(c, step);
    WindowExact(c);
  }

  /** Durations are whole minutes, so even numbers of nanoseconds: the window is never the
      largest duration. */
  lemma WindowBelowLargest(c: LiveConfig)
    ensures WindowNanos(c) + 1 < TWO_63
  {
    MinutesBelowLargest(Wrap(Wrap(c.window * 2) * c.max));
  }

  lemma MinutesBelowLargest(minutes: int)
    ensures Wrap(minutes * MINUTE) + 1 < TWO_63
  {
    EvenBelowLargest(minutes * 30_000_000_000);
  }

  lemma EvenBelowLargest(half: int)
    ensures Wrap(2 * half) + 1 < TWO_63
  {
    var x := 2 * half + TWO_63;
    assert x == x / TWO_64 * TWO_64 + x % TWO_64;
  }

  /** A window one step too wide wraps to a negative duration. */
  lemma WindowWraps()
    ensures var c: LiveConfig := Config(5, 76_861_434, 1, 1);
            WindowMinutes(c) == MAX_MINUTES + 1 && WindowNanos(c) < 0
  {
  }
}
