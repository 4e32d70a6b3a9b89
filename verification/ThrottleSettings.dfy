/** What the settings mean: how a runtime edit and the defaults decide when a key is locked, and
    for how long. */
module ThrottleSettings {
  import opened Common
  import opened Backoff
  import opened Throttle

  /** The fields of a configuration after an edit, one by one. */
  predicate Edited(c: Config, e: Config, c': Config) {
    && (e.maxAttempts > 0 ==> c'.maxAttempts == e.maxAttempts)
    && (e.maxAttempts <= 0 ==> c'.maxAttempts == c.maxAttempts)
    && (e.window > 0 ==> c'.window == e.window)
    && (e.window <= 0 ==> c'.window == c.window)
    && (e.base > 0 ==> c'.base == e.base)
    && (e.base <= 0 ==> c'.base == c.base)
    && (e.max > 0 ==> c'.max == e.max)
    && (e.max <= 0 ==> c'.max == c.max)
  }

  /** The settings a server starts with: what is missing or not positive takes its default. */
  predicate Defaulted(c: Config, c': Config) {
    Edited(Config(5, 15, 1, 64), c, c')
  }

  lemma EditFields(s: State, e: Config)
    ensures Edited(s.cfg, e, UpdateConfig(s, e).cfg)
    ensures UpdateConfig(s, e).byIP == s.byIP && UpdateConfig(s, e).byUser == s.byUser
    ensures Defaulted(e, Normalized(e))
  {
  }

  /** A run of failures recorded on one address and one username. */
  function Failing(s: State, ip: string, user: string, times: seq<int>): State {
    if times == [] then s else RecordFailure(Failing(s, ip, user, Front(times)), ip, user, Last(times))
  }

  /** No failure counts against the key. */
  predicate Unblemished(s: State, k: Key) {
    match At(s, k)
    case None => true
    case Some(v) => v.failures == 0 && v.backoffStep == 0 && v.lockoutUntil == ZERO_TIME
  }

  function LockEnd(s: State, k: Key): int {
    match At(s, k)
    case None => ZERO_TIME
    case Some(v) => v.lockoutUntil
  }

  lemma {:induction false} FailingCounts(s: State, ip: string, user: string, times: seq<int>, k: Key)
    requires (k == IP(ip) || k == User(user)) && Unblemished(s, k) && |times| <= s.cfg.maxAttempts
    ensures var s' := Failing(s, ip, user, times);
            && s'.cfg == s.cfg
            && (times == [] ==> s' == s)
            && (times != [] ==> At(s', k).Some? && At(s', k).value.failures == |times|)
            && (|times| < s.cfg.maxAttempts ==>
                  LockEnd(s', k) == ZERO_TIME && (times != [] ==> At(s', k).value.backoffStep == 0))
            && (|times| == s.cfg.maxAttempts ==> LockEnd(s', k) == Last(times) + LockoutNanos(s.cfg, 0))
  {
    if times == [] {
    } else {
      FailingCounts(s, ip, user, Front(times), k);
    }
  }

  lemma FirstLockout(c: LiveConfig)
    requires c.base <= MAX_MINUTES || c.max <= MAX_MINUTES
    ensures LockoutNanos(c, 0) == (if c.base <= c.max then c.base else c.max) * MINUTE
  {
    assert Pow2(0) == 1;
  }

  /** A key without failures is locked by the MaxAttempts-th failure recorded against it and not
      before, and for the smaller of the base and the cap. */
  lemma ThresholdLocks(s: State, ip: string, user: string, times: seq<int>, k: Key)
    requires (k == IP(ip) || k == User(user)) && Unblemished(s, k)
    requires s.cfg.base <= MAX_MINUTES || s.cfg.max <= MAX_MINUTES
    ensures |times| < s.cfg.maxAttempts ==> LockEnd(Failing(s, ip, user, times), k) == ZERO_TIME
    ensures |times| == s.cfg.maxAttempts ==>
      LockEnd(Failing(s, ip, user, times), k) ==
      Last(times) + (if s.cfg.base <= s.cfg.max then s.cfg.base else s.cfg.max) * MINUTE
  {
    if |times| <= s.cfg.maxAttempts {
      FailingCounts(s, ip, user, times, k);
      FirstLockout(s.cfg);
    }
  }

  /** After an edit that sets the threshold to n, that is its n-th failure; base and cap are those
      of the edit where it sets them. */
  lemma EditSetsThreshold(s: State, e: Config, ip: string, user: string, times: seq<int>, k: Key)
    requires (k == IP(ip) || k == User(user)) && Unblemished(s, k) && e.maxAttempts > 0
    requires (if e.base > 0 then e.base else s.cfg.base) <= MAX_MINUTES || (if e.max > 0 then e.max else s.cfg.max) <= MAX_MINUTES
    ensures var s' := Failing(UpdateConfig(s, e), ip, user, times);
            var base := if e.base > 0 then e.base else s.cfg.base;
            var cap := if e.max > 0 then e.max else s.cfg.max;
            && (|times| < e.maxAttempts ==> LockEnd(s', k) == ZERO_TIME)
            && (|times| == e.maxAttempts ==> LockEnd(s', k) == Last(times) + (if base <= cap then base else cap) * MINUTE)
  {
    EditFields(s, e);
    ThresholdLocks(UpdateConfig(s, e), ip, user, times, k);
  }

  /** A server started without settings locks with the fifth failure, for a minute. */
  lemma DefaultThreshold(c: Config, ip: string, user: string, times: seq<int>, k: Key)
    requires (k == IP(ip) || k == User(user)) && c.maxAttempts <= 0 && c.window <= 0 && c.base <= 0 && c.max <= 0
    ensures var s' := Failing(Initial(Normalized(c)), ip, user, times);
            && (|times| < 5 ==> LockEnd(s', k) == ZERO_TIME)
            && (|times| == 5 ==> LockEnd(s', k) == Last(times) + MINUTE)
            && WindowNanos(Normalized(c)) == 1920 * MINUTE
  {
    EditFields(Initial(Normalized(c)), c);
    ThresholdLocks(Initial(Normalized(c)), ip, user, times, k);
  }
}
