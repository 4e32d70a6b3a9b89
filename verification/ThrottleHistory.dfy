/** Sequential runs of the throttle under one configuration. The lazily cleaned trackers
    are compared with a specification that reads nothing but the history of operations,
    and the waits that repeated failures are forced into are added up. */
module ThrottleHistory {
  import opened Common
  import opened Backoff
  import opened Throttle

  datatype Op =
    | Login(ip: string, user: string, good: bool, now: nat)
    | Peek(now: nat)
    | ResetOne(key: Key, now: nat)
    | ResetEverything(now: nat)

  /** One atomic operation of the server. */
  function Step(s: State, op: Op): State {
    match op
    case Login(ip, user, good, now) => Attempt(s, ip, user, good, now).0
    case Peek(now) => Refresh(s, now)
    case ResetOne(key, _) => if key.IP? then ResetByIP(s, key.name) else ResetByUsername(s, key.name)
    case ResetEverything(_) => ResetAll(s)
  }

  function Run(c: LiveConfig, h: seq<Op>): State {
    if h == [] then Initial(c) else Step(Run(c, Front(h)), Last(h))
  }

  /** The clock after a history. */
  function Clock(h: seq<Op>): nat {
    if h == [] then 0 else Last(h).now
  }

  /** The clock never runs backwards. */
  predicate Timed(h: seq<Op>) {
    h != [] ==> Timed(Front(h)) && Clock(Front(h)) <= Last(h).now
  }

  /** The operation clears the key's tracker whatever it holds. */
  predicate Resets(op: Op, k: Key) {
    op.ResetEverything? || (op.ResetOne? && op.key == k)
  }

  // ---- the history-only specification ----

  /** The times of the failures recorded against k since its last reset. A login is turned
      away, and records nothing, while either of its keys is locked. */
  function Failures(c: LiveConfig, h: seq<Op>, k: Key): seq<int>
    decreases |h|, 0
  {
    if h == [] then [] else
    var before := Failures(c, Front(h), k);
    match Last(h)
    case Login(ip, user, good, now) =>
      if (k != IP(ip) && k != User(user)) || TurnedAway(c, Front(h), ip, user, now) then before
      else if good then [] else before + [now]
    case _ => if Resets(Last(h), k) then [] else before
  }

  predicate TurnedAway(c: LiveConfig, h: seq<Op>, ip: string, user: string, now: int)
    decreases |h|, 1
  {
    now < LockedUntil(c, Failures(c, h, IP(ip))) || now < LockedUntil(c, Failures(c, h, User(user)))
  }

  /** The length of the trailing run of failures whose gaps are at most w. */
  function Chain(fs: seq<int>, w: int): (n: nat)
    ensures n <= |fs| && (n > 0 <==> |fs| > 0)
  {
    if |fs| <= 1 then |fs|
    else if Last(fs) - Last(Front(fs)) <= w then Chain(Front(fs), w) + 1 else 1
  }

  /** The idle window and the lockouts in unbounded nanoseconds. */
  function Window(c: LiveConfig): int {
    WindowMinutes(c) * MINUTE
  }

  function LockedUntil(c: LiveConfig, fs: seq<int>): int {
    var n := Chain(fs, Window(c));
    if n >= c.maxAttempts then Last(fs) + Lockout(c, n - c.maxAttempts) * MINUTE else ZERO_TIME
  }

  /** The failures that still count at a time: none once the key has been idle past the window. */
  function Counting(c: LiveConfig, fs: seq<int>, now: int): nat {
    if fs == [] || now - Last(fs) > Window(c) then 0 else Chain(fs, Window(c))
  }

  predicate Linked(fs: seq<int>, i: nat, w: int)
    requires 0 < i < |fs|
  {
    fs[i] - fs[i - 1] <= w
  }

  /** Chain is what its name says: the last n failures are linked, and n is the largest such number. */
  lemma {:induction false} ChainIsLongest(fs: seq<int>, w: int, m: nat)
    requires 1 <= m <= |fs|
    ensures m <= Chain(fs, w) <==> forall i :: |fs| - m < i < |fs| ==> Linked(fs, i, w)
  {
    if m <= 1 {
    } else {
      ChainIsLongest(Front(fs), w, m - 1);
      forall i | |fs| - m < i < |fs| - 1
        ensures Linked(fs, i, w) == Linked(Front(fs), i, w)
      {
      }
      assert Linked(fs, |fs| - 1, w) == (Last(fs) - Last(Front(fs)) <= w);
    }
  }

  // ---- what the trackers of a run hold ----

  function ViewOf(c: LiveConfig, fs: seq<int>): View
    requires fs != []
  {
    var n := Chain(fs, Window(c));
    View(n, LockedUntil(c, fs), if n >= c.maxAttempts then n - c.maxAttempts + 1 else 0, Last(fs))
  }

  /** A tracker either shows its history exactly or was cleaned after the window had passed. */
  predicate Shows(c: LiveConfig, v: Option<View>, fs: seq<int>, clock: int) {
    match v
    case None => fs == []
    case Some(t) =>
      fs != [] &&
      (t == ViewOf(c, fs) || (t == View(0, ZERO_TIME, 0, Last(fs)) && clock - Last(fs) > Window(c)))
  }

  /** By the time a key is idle its lock is over. */
  lemma IdleIsUnlocked(c: LiveConfig, fs: seq<int>, now: nat)
    requires Fits(c) && fs != [] && now - Last(fs) > Window(c)
    ensures LockedUntil(c, fs) <= now
  {
    var n := Chain(fs, Window(c));
    if n >= c.maxAttempts {
      LockoutExact(c, n - c.maxAttempts);
      WindowExact(c);
    }
  }

  /** Cleaning a tracker that shows its history leaves exactly the failures that still count. */
  lemma CleanShows(c: LiveConfig, v: View, fs: seq<int>, clock: int, now: nat)
    requires Fits(c) && clock <= now && Shows(c, Some(v), fs, clock)
    ensures Shows(c, Some(Clean(c, v, now)), fs, now)
    ensures Clean(c, v, now).failures == Counting(c, fs, now)
    ensures Clean(c, v, now).lockoutUntil == if Counting(c, fs, now) == 0 then ZERO_TIME else LockedUntil(c, fs)
    ensures now < Clean(c, v, now).lockoutUntil <==> now < LockedUntil(c, fs)
  {
    WindowExact(c);
    if now - Last(fs) > Window(c) {
      IdleIsUnlocked(c, fs, now);
    }
  }

  /** Counting a failure at a cleaned tracker extends the history it shows. */
  lemma FailShows(c: LiveConfig, v: Option<View>, fs: seq<int>, now: nat)
    requires Fits(c) && Shows(c, v, fs, now)
    requires v.Some? ==> v.value == Clean(c, v.value, now)
    ensures Shows(c, Some(Fail(c, if v.Some? then v.value else View(0, ZERO_TIME, 0, now), now)), fs + [now], now)
  {
    var t := if v.Some? then v.value else View(0, ZERO_TIME, 0, now);
    assert Front(fs + [now]) == fs;
    WindowExact(c);
    if t.failures + 1 >= c.maxAttempts {
      LockoutExact(c, t.backoffStep);
    }
  }

  function SpecVerdict(c: LiveConfig, ipFailures: seq<int>, userFailures: seq<int>, now: nat): Verdict {
    if now < LockedUntil(c, ipFailures) then IPLocked
    else if now < LockedUntil(c, userFailures) then AccountLocked
    else Allowed
  }

  /** Check decides as the two histories say, and has cleaned both trackers when it allows. */
  lemma CheckDecides(c: LiveConfig, s: State, ip: string, user: string, fi: seq<int>, fu: seq<int>, clock: int, now: nat)
    requires Fits(c) && clock <= now && s.cfg == c
    requires Shows(c, At(s, IP(ip)), fi, clock) && Shows(c, At(s, User(user)), fu, clock)
    ensures Check(s, ip, user, now).1 == SpecVerdict(c, fi, fu, now)
    ensures Check(s, ip, user, now).1 == Allowed ==>
      var s1 := Check(s, ip, user, now).0;
      && (ip in s1.byIP ==> s1.byIP[ip] == Clean(c, s1.byIP[ip], now))
      && (user in s1.byUser ==> s1.byUser[user] == Clean(c, s1.byUser[user], now))
  {
    if ip in s.byIP {
      CleanShows(c, s.byIP[ip], fi, clock, now);
    }
    if user in s.byUser {
      CleanShows(c, s.byUser[user], fu, clock, now);
    }
  }

  /** Whatever Check decides, every tracker still shows its history. */
  lemma CheckShows(c: LiveConfig, s: State, ip: string, user: string, k: Key, fs: seq<int>, clock: int, now: nat)
    requires Fits(c) && clock <= now && s.cfg == c && Shows(c, At(s, k), fs, clock)
    ensures Check(s, ip, user, now).0.cfg == c
    ensures Shows(c, At(Check(s, ip, user, now).0, k), fs, now)
  {
    if At(s, k).Some? {
      CleanShows(c, At(s, k).value, fs, clock, now);
    }
  }

  /** The failures a key is left with after a login that touches it or not, is turned away or
      not, and is good or not. */
  function After(fs: seq<int>, touched: bool, away: bool, good: bool, now: int): seq<int> {
    if !touched || away then fs else if good then [] else fs + [now]
  }

  /** One login, at the two keys it touches and at any other. */
  lemma AttemptShows(c: LiveConfig, s: State, ip: string, user: string, good: bool, now: nat, clock: int,
                     fi: seq<int>, fu: seq<int>, k: Key, fs: seq<int>)
    requires Fits(c) && clock <= now && s.cfg == c
    requires Shows(c, At(s, IP(ip)), fi, clock) && Shows(c, At(s, User(user)), fu, clock) && Shows(c, At(s, k), fs, clock)
    ensures var away := SpecVerdict(c, fi, fu, now) != Allowed;
            && Attempt(s, ip, user, good, now).0.cfg == c
            && Shows(c, At(Attempt(s, ip, user, good, now).0, k),
                     After(fs, k == IP(ip) || k == User(user), away, good, now), now)
  {
    CheckDecides(c, s, ip, user, fi, fu, clock, now);
    CheckShows(c, s, ip, user, k, fs, clock, now);
    var (s1, verdict) := Check(s, ip, user, now);
    if verdict == Allowed && !good && (k == IP(ip) || k == User(user)) {
      FailShows(c, At(s1, k), fs, now);
    }
  }

  /** What the history-only specification makes of one more login. */
  lemma FailuresAfterLogin(c: LiveConfig, f: seq<Op>, op: Op, k: Key)
    requires op.Login?
    ensures var away := SpecVerdict(c, Failures(c, f, IP(op.ip)), Failures(c, f, User(op.user)), op.now) != Allowed;
            Failures(c, f + [op], k) ==
            After(Failures(c, f, k), k == IP(op.ip) || k == User(op.user), away, op.good, op.now)
  {
    assert Front(f + [op]) == f;
  }

  lemma RunAfter(c: LiveConfig, f: seq<Op>, op: Op)
    ensures Run(c, f + [op]) == Step(Run(c, f), op)
  {
    assert Front(f + [op]) == f;
  }

  lemma LoginShows(c: LiveConfig, f: seq<Op>, op: Op, k: Key)
    requires Fits(c) && op.Login? && Clock(f) <= op.now && Run(c, f).cfg == c
    requires Shows(c, At(Run(c, f), IP(op.ip)), Failures(c, f, IP(op.ip)), Clock(f))
    requires Shows(c, At(Run(c, f), User(op.user)), Failures(c, f, User(op.user)), Clock(f))
    requires Shows(c, At(Run(c, f), k), Failures(c, f, k), Clock(f))
    ensures Shows(c, At(Run(c, f + [op]), k), Failures(c, f + [op], k), op.now)
    ensures Run(c, f + [op]).cfg == c
  {
    var s, fi, fu, fs := Run(c, f), Failures(c, f, IP(op.ip)), Failures(c, f, User(op.user)), Failures(c, f, k);
    AttemptShows(c, s, op.ip, op.user, op.good, op.now, Clock(f), fi, fu, k, fs);
    FailuresAfterLogin(c, f, op, k);
    RunAfter(c, f, op);
  }

  /** Reading the state cleans what it reads, and a reset forgets the key. */
  lemma QuietStepShows(c: LiveConfig, s: State, op: Op, k: Key, fs: seq<int>, clock: int)
    requires Fits(c) && !op.Login? && clock <= op.now && s.cfg == c && Shows(c, At(s, k), fs, clock)
    ensures Shows(c, At(Step(s, op), k), if Resets(op, k) then [] else fs, op.now) && Step(s, op).cfg == c
  {
    if op.Peek? && At(s, k).Some? {
      CleanShows(c, At(s, k).value, fs, clock, op.now);
    }
  }

  lemma FailuresAfterQuiet(c: LiveConfig, f: seq<Op>, op: Op, k: Key)
    requires !op.Login?
    ensures Failures(c, f + [op], k) == if Resets(op, k) then [] else Failures(c, f, k)
  {
    assert Front(f + [op]) == f;
  }

  lemma QuietShows(c: LiveConfig, f: seq<Op>, op: Op, k: Key)
    requires Fits(c) && !op.Login? && Clock(f) <= op.now && Run(c, f).cfg == c
    requires Shows(c, At(Run(c, f), k), Failures(c, f, k), Clock(f))
    ensures Shows(c, At(Run(c, f + [op]), k), Failures(c, f + [op], k), op.now)
    ensures Run(c, f + [op]).cfg == c
  {
    QuietStepShows(c, Run(c, f), op, k, Failures(c, f, k), Clock(f));
    FailuresAfterQuiet(c, f, op, k);
    RunAfter(c, f, op);
  }

  /** Every key of every reachable state shows its history. */
  lemma {:induction false} RunShows(c: LiveConfig, h: seq<Op>, k: Key)
    requires Fits(c) && Timed(h)
    ensures Shows(c, At(Run(c, h), k), Failures(c, h, k), Clock(h))
    ensures Run(c, h).cfg == c
    decreases |h|
  {
    if h == [] {
    } else {
      var f, op := Front(h), Last(h);
      assert h == f + [op];
      RunShows(c, f, k);
      if op.Login? {
        RunShows(c, f, IP(op.ip));
        RunShows(c, f, User(op.user));
        LoginShows(c, f, op, k);
      } else {
        QuietShows(c, f, op, k);
      }
    }
  }

  // ---- main results ----

  /** Lazy expiry is invisible at a key and a time: cleaning the key's tracker leaves exactly
      the failures that still count and their lock, and a missing tracker means no failures. */
  predicate Refined(c: LiveConfig, h: seq<Op>, k: Key, now: nat) {
    var fs := Failures(c, h, k);
    match At(Run(c, h), k)
    case None => fs == []
    case Some(t) =>
      && Clean(c, t, now).failures == Counting(c, fs, now)
      && Clean(c, t, now).lockoutUntil == (if Counting(c, fs, now) == 0 then ZERO_TIME else LockedUntil(c, fs))
  }

  /** In every timed run, at every key, the lazily cleaned tracker means what the history says. */
  lemma LazyExpiryRefinesHistory(c: LiveConfig, h: seq<Op>, k: Key, now: nat)
    requires Fits(c) && Timed(h) && Clock(h) <= now
    ensures Refined(c, h, k, now)
  {
    RunShows(c, h, k);
    if At(Run(c, h), k).Some? {
      CleanShows(c, At(Run(c, h), k).value, Failures(c, h, k), Clock(h), now);
    }
  }

  /** The first instant at which a window counted from 0 takes a tracker for idle. */
  function FirstIdle(c: LiveConfig): (now: nat)
    ensures WindowNanos(c) < now
    ensures !Fits(c) ==> now <= Window(c)
  {
    WindowExact(c);
    WrapsBelow(c);
    if WindowNanos(c) < 0 then 0 else WindowNanos(c) + 1
  }

  /** A window that does not fit wraps to something shorter. */
  lemma WrapsBelow(c: LiveConfig)
    ensures WindowNanos(c) <= Window(c)
  {
    if Fits(c) {
      WindowExact(c);
    } else {
      assert Window(c) >= TWO_63;
    }
  }

  /** When the window overflows, a single failure is forgotten while it should still count, and
      within the range of a duration. */
  lemma OverflowForgets(c: LiveConfig)
    requires !Fits(c)
    ensures Timed([Login("a", "u", false, 0)])
    ensures FirstIdle(c) < TWO_63
    ensures !Refined(c, [Login("a", "u", false, 0)], IP("a"), FirstIdle(c))
  {
    var h, now := [Login("a", "u", false, 0)], FirstIdle(c);
    WindowBelowLargest(c);
    assert Front(h) == [];
    assert Failures(c, h, IP("a")) == [0];
    assert Chain([0], Window(c)) == 1;
    assert Counting(c, [0], now) == 1;
    assert Run(c, []) == Initial(c);
    var t := Fail(c, View(0, ZERO_TIME, 0, 0), 0);
    assert Check(Initial(c), "a", "u", 0) == (Initial(c), Allowed);
    assert At(Run(c, h), IP("a")) == Some(t);
    assert Clean(c, t, now).failures == 0;
  }

  /** The configurations whose window fits are exactly the ones for which this holds of every
      run, at every time that a duration can still measure. */
  lemma RefinementNeedsFit(c: LiveConfig)
    ensures Fits(c) <==> forall h, k, now: nat :: Timed(h) && Clock(h) <= now < TWO_63 ==> Refined(c, h, k, now)
  {
    if Fits(c) {
      forall h, k, now: nat | Timed(h) && Clock(h) <= now < TWO_63
        ensures Refined(c, h, k, now)
      {
        LazyExpiryRefinesHistory(c, h, k, now);
      }
    } else {
      OverflowForgets(c);
    }
  }

  /** Reading the state shows, for every key, the failures that still count at that time, and their
      lock; what has expired is shown no more. */
  lemma StateShowsCounting(c: LiveConfig, h: seq<Op>, k: Key, now: nat)
    requires Fits(c) && Timed(h) && Clock(h) <= now
    ensures var fs, shown := Failures(c, h, k), At(Refresh(Run(c, h), now), k);
            && (shown.None? ==> fs == [])
            && (shown.Some? ==>
                  && shown.value.failures == Counting(c, fs, now)
                  && shown.value.lockoutUntil == if Counting(c, fs, now) == 0 then ZERO_TIME else LockedUntil(c, fs))
  {
    RunShows(c, h, k);
    if At(Run(c, h), k).Some? {
      CleanShows(c, At(Run(c, h), k).value, Failures(c, h, k), Clock(h), now);
    }
  }

  /** A login is turned away in a run exactly when the history says so. */
  lemma VerdictRefinesHistory(c: LiveConfig, h: seq<Op>, ip: string, user: string, now: nat)
    requires Fits(c) && Timed(h) && Clock(h) <= now
    ensures Check(Run(c, h), ip, user, now).1 == SpecVerdict(c, Failures(c, h, IP(ip)), Failures(c, h, User(user)), now)
    ensures Check(Run(c, h), ip, user, now).1 != Allowed <==> TurnedAway(c, h, ip, user, now)
  {
    RunShows(c, h, IP(ip));
    RunShows(c, h, User(user));
    CheckDecides(c, Run(c, h), ip, user, Failures(c, h, IP(ip)), Failures(c, h, User(user)), Clock(h), now);
  }

  /** No failure is recorded while the failures before it keep the key locked. */
  predicate Spaced(c: LiveConfig, fs: seq<int>) {
    fs != [] ==> Spaced(c, Front(fs)) && LockedUntil(c, Front(fs)) <= Last(fs)
  }

  lemma {:induction false} FailuresAreSpaced(c: LiveConfig, h: seq<Op>, k: Key)
    ensures Spaced(c, Failures(c, h, k))
  {
    if h == [] {
    } else {
      FailuresAreSpaced(c, Front(h), k);
      var fs, before := Failures(c, h, k), Failures(c, Front(h), k);
      if fs != before && fs != [] {
        assert Front(fs) == before && Last(fs) == Last(h).now;
      }
    }
  }

  /** Along one chain of failures every lockout is waited out. */
  lemma {:induction false} SpacedChainWaits(c: LiveConfig, fs: seq<int>, k: nat)
    requires Spaced(c, fs) && Chain(fs, Window(c)) == c.maxAttempts + k
    ensures Last(fs) >= fs[|fs| - 1 - k] + TotalLockout(c, k) * MINUTE
  {
    if k == 0 {
    } else {
      SpacedChainWaits(c, Front(fs), k - 1);
      assert fs[|fs| - 1 - k] == Front(fs)[|fs| - 2 - (k - 1)];
    }
  }

  /** The times of the failures the throttle itself recorded against k since its last reset:
      those of the logins that Check let through, in the states of the run. */
  function Recorded(c: LiveConfig, h: seq<Op>, k: Key): seq<int> {
    if h == [] then [] else
    var before := Recorded(c, Front(h), k);
    match Last(h)
    case Login(ip, user, good, now) =>
      if (k != IP(ip) && k != User(user)) || Check(Run(c, Front(h)), ip, user, now).1 != Allowed then before
      else if good then [] else before + [now]
    case _ => if Resets(Last(h), k) then [] else before
  }

  /** The history-only failures are the ones the throttle records. */
  lemma {:induction false} RecordedAreFailures(c: LiveConfig, h: seq<Op>, k: Key)
    requires Fits(c) && Timed(h)
    ensures Recorded(c, h, k) == Failures(c, h, k)
  {
    if h == [] {
    } else {
      RecordedAreFailures(c, Front(h), k);
      if Last(h).Login? {
        VerdictRefinesHistory(c, Front(h), Last(h).ip, Last(h).user, Last(h).now);
      }
    }
  }

  /** In every run, the (MaxAttempts + k)-th failure of an unbroken chain against a key comes no
      earlier than the first lock of that chain plus the sum of the first k lockouts. */
  lemma GuaranteedWaiting(c: LiveConfig, h: seq<Op>, key: Key, k: nat)
    requires Fits(c) && Timed(h)
    requires Chain(Recorded(c, h, key), Window(c)) == c.maxAttempts + k
    ensures var fs := Recorded(c, h, key);
            Last(fs) >= fs[|fs| - 1 - k] + TotalLockout(c, k) * MINUTE
    ensures var fs := Recorded(c, h, key);
            (k > 0 ==> c.base * Pow2(k - 1) <= c.max) ==>
              Last(fs) >= fs[|fs| - 1 - k] + c.base * (Pow2(k) - 1) * MINUTE
  {
    RecordedAreFailures(c, h, key);
    FailuresAreSpaced(c, h, key);
    SpacedChainWaits(c, Failures(c, h, key), k);
    if k > 0 ==> c.base * Pow2(k - 1) <= c.max {
      TotalLockoutUncapped(c, k);
    }
  }

  /** The fit is needed: with a window one minute too wide the idle test fires at once, and a
      key that has just been locked is let in again at the very same instant. */
  lemma OverflowingWindowUnlocks()
    ensures var c: LiveConfig := Config(1, 76_861_434, 1, 1);
            var h := [Login("a", "u", false, 1)];
            && Timed(h)
            && TurnedAway(c, h, "a", "u", 1)
            && Check(Run(c, h), "a", "u", 1).1 == Allowed
  {
    WindowWraps();
    var c: LiveConfig := Config(1, 76_861_434, 1, 1);
    var h := [Login("a", "u", false, 1)];
    assert Front(h) == [];
    assert Failures(c, h, IP("a")) == [1];
    LockoutBounds(c, 0);
    var t := Run(c, h).byIP["a"];
    assert t.lastSeen == 1 && Idle(c, t, 1);
    assert Run(c, h).byUser["u"] == t;
  }
}
