/** How many failures concurrent logins can force in a given time. Logins that passed Check
    before a lock may all fail during it, so the waits of sequential runs do not hold as they are;
    with at most a given number of logins pending on the key, their failures per lock are bounded
    by that number. */
module ThrottleWaiting {
  import opened Common
  import opened Backoff
  import opened Throttle
  import opened ThrottleInterleaved

  /** The locks of a chain of failures: when the first one was set, and how many locks have run
      out and been followed by another. */
  datatype Locks = Locks(first: int, renewed: nat)

  /** A failure of a login on the key. */
  predicate FailsOn(y: Sys, op: Op, k: Key) {
    op.Fails? && op.id in y.inflight && Touches(k, y.inflight[op.id])
  }

  function NextLocks(c: LiveConfig, y: Sys, op: Op, k: Key, l: Locks): Locks {
    if !FailsOn(y, op, k) then l
    else if FailuresOf(y, k) + 1 == c.maxAttempts then Locks(op.now, 0)
    else if FailuresOf(y, k) >= c.maxAttempts && LockOf(y, k) <= op.now then l.(renewed := l.renewed + 1)
    else l
  }

  function LocksAfter(c: LiveConfig, y: Sys, w: seq<Op>, k: Key, l: Locks): Locks
    requires CanRun(y, w)
    decreases w
  {
    if w == [] then l else LocksAfter(c, Step(y, w[0]), w[1..], k, NextLocks(c, y, w[0], k, l))
  }

  /** When the first lock of the key's current chain of failures was set. */
  function FirstLock(c: LiveConfig, w: seq<Op>, k: Key): int
    requires CanRun(Start(c), w)
  {
    LocksAfter(c, Start(c), w, k, Locks(0, 0)).first
  }

  /** At no time of the run more than p logins on the key have passed Check and are undecided. */
  predicate AtMost(y: Sys, w: seq<Op>, k: Key, p: nat)
    decreases w
  {
    |Pending(y, k)| <= p && (w != [] ==> Enabled(y, w[0]) && AtMost(Step(y, w[0]), w[1..], k, p))
  }

  /** The step counts the failures from the threshold on. */
  predicate Stepped(c: LiveConfig, v: View) {
    v.backoffStep == if v.failures < c.maxAttempts then 0 else v.failures - c.maxAttempts + 1
  }

  /** The failures that fit into the first n locks. */
  function Room(c: LiveConfig, p: nat, n: nat): int {
    c.maxAttempts - 1 + n * p
  }

  /** A key that has been locked: every lock so far was waited out before it was renewed, and each
      leaves room for p failures, those of the logins still pending included while it lasts. */
  predicate Waited(c: LiveConfig, v: View, clock: int, pending: nat, l: Locks, p: nat) {
    && l.renewed <= v.failures - c.maxAttempts
    && l.first + TotalLockout(c, l.renewed) * MINUTE <= v.lastSeen <= clock
    && l.first + TotalLockout(c, l.renewed + 1) * MINUTE <= v.lockoutUntil
    && v.failures <= Room(c, p, l.renewed + 1)
    && (clock < v.lockoutUntil ==> v.failures + pending <= Room(c, p, l.renewed + 1))
  }

  predicate WaitedAt(c: LiveConfig, y: Sys, k: Key, l: Locks, p: nat) {
    match At(y.s, k)
    case None => true
    case Some(v) => Stepped(c, v) && (v.failures >= c.maxAttempts ==> Waited(c, v, y.clock, |Pending(y, k)|, l, p))
  }

  /** One failure at a tracker. */
  lemma FailWaits(c: LiveConfig, v: View, clock: int, now: int, pending: nat, l: Locks, p: nat)
    requires Fits(c) && Sound(c, v, clock) && Stepped(c, v) && clock <= now
    requires v.failures >= c.maxAttempts ==> Waited(c, v, clock, pending, l, p)
    requires 1 <= pending <= p
    ensures var l' := if v.failures + 1 == c.maxAttempts then Locks(now, 0)
                      else if v.failures >= c.maxAttempts && v.lockoutUntil <= now then l.(renewed := l.renewed + 1)
                      else l;
            && Stepped(c, Fail(c, v, now))
            && (v.failures + 1 >= c.maxAttempts ==> Waited(c, Fail(c, v, now), now, pending - 1, l', p))
  {
    var n := v.failures;
    if n + 1 == c.maxAttempts {
      LockoutExact(c, 0);
      assert TotalLockout(c, 1) == TotalLockout(c, 0) + Lockout(c, 0);
    } else if n >= c.maxAttempts && v.lockoutUntil <= now {
      var r := l.renewed + 1;
      LockoutExact(c, v.backoffStep);
      LockoutMonotone(c, r, v.backoffStep);
      assert TotalLockout(c, r + 1) == TotalLockout(c, r) + Lockout(c, r);
      assert Room(c, p, r + 1) == Room(c, p, r) + p by {
        assert (r + 1) * p == r * p + p;
      }
    } else if n >= c.maxAttempts {
      FailExtends(c, v, clock, now);
    }
  }

  lemma FailStepTracker(y: Sys, op: Op, k: Key)
    requires Enabled(y, op) && FailsOn(y, op, k)
    ensures At(Step(y, op).s, k) == Some(Fail(y.s.cfg, GetOrNew(Table(y.s, k), k.name, op.now), op.now))
  {
  }

  lemma FailStepPending(y: Sys, op: Op, k: Key)
    requires Enabled(y, op) && FailsOn(y, op, k)
    ensures |Pending(y, k)| >= 1 && |Pending(Step(y, op), k)| == |Pending(y, k)| - 1
  {
    assert op.id in Pending(y, k);
    assert Pending(Step(y, op), k) == Pending(y, k) - {op.id};
  }

  lemma FailStepWaits(c: LiveConfig, y: Sys, op: Op, k: Key, l: Locks, p: nat)
    requires Fits(c) && SoundSys(c, y) && Enabled(y, op) && FailsOn(y, op, k)
    requires WaitedAt(c, y, k, l, p) && |Pending(y, k)| <= p
    ensures WaitedAt(c, Step(y, op), k, NextLocks(c, y, op, k, l), p)
  {
    FailStepTracker(y, op, k);
    FailStepPending(y, op, k);
    var v := GetOrNew(Table(y.s, k), k.name, op.now);
    FailWaits(c, v, if At(y.s, k).Some? then y.clock else op.now, op.now, |Pending(y, k)|, l, p);
  }

  /** Any other step leaves the tracker alone or clears it, and lets logins in only when the key
      is not locked. */
  lemma OtherStepWaits(c: LiveConfig, y: Sys, op: Op, k: Key, l: Locks, p: nat)
    requires Fits(c) && SoundSys(c, y) && Enabled(y, op) && !op.Edit? && !FailsOn(y, op, k)
    requires WaitedAt(c, y, k, l, p)
    ensures WaitedAt(c, Step(y, op), k, l, p)
  {
    var y' := Step(y, op);
    OtherStepTracker(c, y, op, k);
    if At(y'.s, k).Some? && At(y'.s, k).value.failures >= c.maxAttempts {
      assert At(y'.s, k) == At(y.s, k);
      if op.now < LockOf(y, k) {
        OtherStepPending(c, y, op, k);
      }
    }
  }

  lemma OtherStepTracker(c: LiveConfig, y: Sys, op: Op, k: Key)
    requires SoundSys(c, y) && Enabled(y, op) && !op.Edit? && !FailsOn(y, op, k)
    ensures var t := At(Step(y, op).s, k);
            t == At(y.s, k) || t == None || (t.value.failures == 0 && t.value.backoffStep == 0)
  {
  }

  lemma OtherStepPending(c: LiveConfig, y: Sys, op: Op, k: Key)
    requires Fits(c) && SoundSys(c, y) && Enabled(y, op) && !op.Edit? && op.now < LockOf(y, k)
    ensures Pending(Step(y, op), k) <= Pending(y, k)
    ensures |Pending(Step(y, op), k)| <= |Pending(y, k)|
  {
    if op.Begin? {
      BeginHeld(c, y, op, k);
    }
    SubsetIsSmaller(Pending(Step(y, op), k), Pending(y, k));
  }

  lemma SubsetIsSmaller(a: set<nat>, b: set<nat>)
    requires a <= b
    ensures |a| <= |b|
  {
    assert b == a + (b - a);
  }

  lemma {:induction false} RunWaits(c: LiveConfig, y: Sys, w: seq<Op>, k: Key, l: Locks, p: nat)
    requires Fits(c) && SoundSys(c, y) && CanRun(y, w) && NoEdits(w) && AtMost(y, w, k, p)
    requires WaitedAt(c, y, k, l, p)
    ensures WaitedAt(c, Run(y, w), k, LocksAfter(c, y, w, k, l), p)
    decreases w
  {
    if w == [] {
    } else {
      var l' := NextLocks(c, y, w[0], k, l);
      assert !w[0].Edit?;
      assert forall i :: 0 <= i < |w[1..]| ==> w[1..][i] == w[i + 1];
      if FailsOn(y, w[0], k) {
        FailStepWaits(c, y, w[0], k, l, p);
      } else {
        OtherStepWaits(c, y, w[0], k, l, p);
      }
      StepSound(c, y, w[0]);
      RunWaits(c, Step(y, w[0]), w[1..], k, l', p);
    }
  }

  lemma {:induction false} TotalMonotone(c: LiveConfig, m: nat, n: nat)
    requires m <= n
    ensures TotalLockout(c, m) <= TotalLockout(c, n)
  {
    if m == n {
    } else {
      TotalMonotone(c, m, n - 1);
      LockoutBounds(c, n - 1);
    }
  }

  /** In every interleaved run with at most p logins pending on a key at a time, the failures of a
      chain counted before its first lock plus the first n lockouts are at most MaxAttempts - 1
      and p for each of these locks. One login at a time makes that one failure a lock. */
  lemma FailuresPerLock(c: LiveConfig, w: seq<Op>, k: Key, p: nat, n: nat)
    requires Fits(c) && CanRun(Start(c), w) && NoEdits(w) && AtMost(Start(c), w, k, p)
    requires FailuresOf(Run(Start(c), w), k) >= c.maxAttempts
    requires Run(Start(c), w).clock < FirstLock(c, w, k) + TotalLockout(c, n) * MINUTE
    ensures FailuresOf(Run(Start(c), w), k) <= c.maxAttempts - 1 + n * p
  {
    RunWaits(c, Start(c), w, k, Locks(0, 0), p);
    var l := LocksAfter(c, Start(c), w, k, Locks(0, 0));
    if n <= l.renewed {
      TotalMonotone(c, n, l.renewed);
    } else {
      RoomGrows(c, p, l.renewed + 1, n);
    }
  }

  lemma RoomGrows(c: LiveConfig, p: nat, m: nat, n: nat)
    requires m <= n
    ensures Room(c, p, m) <= Room(c, p, n)
  {
    assert n * p - m * p == (n - m) * p;
  }

  /** Without such a bound nobody waits: as many logins as pass Check before the first lock may all
      fail at one instant. */
  lemma AllMayFailAtOnce(c: LiveConfig, n: nat) returns (w: seq<Op>)
    requires Fits(c)
    ensures CanRun(Start(c), w) && Edits(w) == []
    ensures Run(Start(c), w).clock == 0 && FailuresOf(Run(Start(c), w), User("u")) == n
  {
    w := RunStrikes(c, n, n);
    StruckShows(c, n);
  }
}
