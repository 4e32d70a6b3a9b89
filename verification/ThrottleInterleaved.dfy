/** Concurrent logins: Check and RecordFailure (or Reset) are separate steps, any number of
    logins are between the two, and the configuration may be edited at any time. */
module ThrottleInterleaved {
  import opened Common
  import opened Backoff
  import opened Throttle

  /** A login that has passed Check and not yet reported its outcome. */
  datatype Attempted = Attempted(ip: string, user: string)

  datatype Sys = Sys(s: State, inflight: map<nat, Attempted>, clock: nat)

  datatype Op =
    | Begin(id: nat, ip: string, user: string, now: nat)  // Check
    | Fails(id: nat, now: nat)                            // RecordFailure
    | Succeeds(id: nat, now: nat)                         // Reset
    | Peek(now: nat)
    | ResetOne(key: Key, now: nat)
    | ResetEverything(now: nat)
    | Edit(cfg: Config, now: nat)

  /** A login runs its steps once and in order, and the clock never runs backwards. */
  predicate Enabled(y: Sys, op: Op) {
    && y.clock <= op.now
    && (op.Begin? ==> op.id !in y.inflight)
    && (op.Fails? || op.Succeeds? ==> op.id in y.inflight)
  }

  function Step(y: Sys, op: Op): Sys
    requires Enabled(y, op)
  {
    var y := y.(clock := op.now);
    match op
    case Begin(id, ip, user, now) =>
      var (s', verdict) := Check(y.s, ip, user, now);
      y.(s := s', inflight := if verdict == Allowed then y.inflight[id := Attempted(ip, user)] else y.inflight)
    case Fails(id, now) =>
      y.(s := RecordFailure(y.s, y.inflight[id].ip, y.inflight[id].user, now), inflight := y.inflight - {id})
    case Succeeds(id, now) =>
      y.(s := Reset(y.s, y.inflight[id].ip, y.inflight[id].user), inflight := y.inflight - {id})
    case Peek(now) => y.(s := Refresh(y.s, now))
    case ResetOne(key, _) => y.(s := if key.IP? then ResetByIP(y.s, key.name) else ResetByUsername(y.s, key.name))
    case ResetEverything(_) => y.(s := ResetAll(y.s))
    case Edit(cfg, _) => y.(s := UpdateConfig(y.s, cfg))
  }

  predicate CanRun(y: Sys, w: seq<Op>)
    decreases w
  {
    w != [] ==> Enabled(y, w[0]) && CanRun(Step(y, w[0]), w[1..])
  }

  function Run(y: Sys, w: seq<Op>): Sys
    requires CanRun(y, w)
    decreases w
  {
    if w == [] then y else Run(Step(y, w[0]), w[1..])
  }

  function Start(c: LiveConfig): Sys {
    Sys(Initial(c), map[], 0)
  }

  // ---- fixed configuration ----

  predicate NoEdits(w: seq<Op>) {
    forall i :: 0 <= i < |w| ==> !w[i].Edit?
  }

  /** A tracker under a fixed configuration: it is locked from its last failure for the lockout
      of its last step, or it has not reached the threshold. */
  predicate Sound(c: LiveConfig, v: View, clock: int) {
    && 0 <= v.lastSeen <= clock
    && (v.backoffStep == 0 ==> v.lockoutUntil == ZERO_TIME && v.failures < c.maxAttempts)
    && (v.backoffStep > 0 ==>
          && v.failures >= c.maxAttempts
          && v.lockoutUntil == v.lastSeen + LockoutNanos(c, v.backoffStep - 1))
  }

  predicate SoundTable(c: LiveConfig, m: map<string, View>, clock: int) {
    forall k :: k in m ==> Sound(c, m[k], clock)
  }

  predicate SoundSys(c: LiveConfig, y: Sys) {
    y.s.cfg == c && SoundTable(c, y.s.byIP, y.clock) && SoundTable(c, y.s.byUser, y.clock)
  }

  lemma StepSound(c: LiveConfig, y: Sys, op: Op)
    requires Enabled(y, op) && !op.Edit? && SoundSys(c, y)
    ensures SoundSys(c, Step(y, op))
  {
    assert SoundTable(c, y.s.byIP, op.now) && SoundTable(c, y.s.byUser, op.now);
  }

  /** Every run without configuration edits keeps every tracker sound. */
  lemma {:induction false} RunSound(c: LiveConfig, y: Sys, w: seq<Op>)
    requires CanRun(y, w) && NoEdits(w) && SoundSys(c, y)
    ensures SoundSys(c, Run(y, w))
    decreases w
  {
    if w == [] {
    } else {
      StepSound(c, y, w[0]);
      RunSound(c, Step(y, w[0]), w[1..]);
    }
  }

  function LockOf(y: Sys, k: Key): int {
    match At(y.s, k)
    case None => ZERO_TIME
    case Some(v) => v.lockoutUntil
  }

  function FailuresOf(y: Sys, k: Key): nat {
    match At(y.s, k)
    case None => 0
    case Some(v) => v.failures
  }

  predicate Touches(k: Key, a: Attempted) {
    k == IP(a.ip) || k == User(a.user)
  }

  /** The logins on a key that have passed Check and are still undecided. */
  function Pending(y: Sys, k: Key): set<nat> {
    set id | id in y.inflight && Touches(k, y.inflight[id])
  }

  /** The step does not reset the key and does not edit the configuration. */
  predicate Spares(y: Sys, op: Op, k: Key) {
    match op
    case Succeeds(id, _) => id in y.inflight ==> !Touches(k, y.inflight[id])
    case ResetOne(key, _) => key != k
    case ResetEverything(_) => false
    case Edit(_, _) => false
    case _ => true
  }

  /** A run during which the key stays locked at every step and is never reset. */
  predicate LockedRun(y: Sys, w: seq<Op>, k: Key)
    decreases w
  {
    w != [] ==>
      && Enabled(y, w[0])
      && Spares(y, w[0], k)
      && w[0].now < LockOf(y, k)
      && LockedRun(Step(y, w[0]), w[1..], k)
  }

  lemma {:induction false} LockedRunIsRun(y: Sys, w: seq<Op>, k: Key)
    requires LockedRun(y, w, k)
    ensures CanRun(y, w)
    decreases w
  {
    if w == [] {
    } else {
      LockedRunIsRun(Step(y, w[0]), w[1..], k);
    }
  }

  /** A locked key is never idle, so cleaning cannot touch it. */
  lemma LockedIsNotIdle(c: LiveConfig, v: View, clock: int, now: int)
    requires Fits(c) && Sound(c, v, clock) && now < v.lockoutUntil && clock <= now
    ensures Clean(c, v, now) == v
  {
    if v.backoffStep > 0 {
      LockoutExact(c, v.backoffStep - 1);
    }
  }

  /** Another failure only ever extends a lock. */
  lemma FailExtends(c: LiveConfig, v: View, clock: int, now: int)
    requires Fits(c) && Sound(c, v, clock) && clock <= now && now < v.lockoutUntil
    ensures Fail(c, v, now).lockoutUntil >= v.lockoutUntil
    ensures Fail(c, v, now).failures == v.failures + 1
  {
    if v.backoffStep > 0 {
      LockoutExact(c, v.backoffStep - 1);
      LockoutExact(c, v.backoffStep);
      LockoutMonotone(c, v.backoffStep - 1, v.backoffStep);
    }
  }

  /** What one step may do to a locked key. */
  ghost predicate Held(y: Sys, y': Sys, k: Key) {
    && LockOf(y', k) >= LockOf(y, k)
    && Pending(y', k) <= Pending(y, k)
    && FailuresOf(y', k) + |Pending(y', k)| == FailuresOf(y, k) + |Pending(y, k)|
  }

  /** A step that leaves the key's tracker and its pending logins alone. */
  lemma SameHeld(y: Sys, y': Sys, k: Key)
    requires At(y'.s, k) == At(y.s, k) && Pending(y', k) == Pending(y, k)
    ensures Held(y, y', k)
  {
  }

  lemma BeginHeld(c: LiveConfig, y: Sys, op: Op, k: Key)
    requires Fits(c) && SoundSys(c, y) && Enabled(y, op) && op.Begin? && op.now < LockOf(y, k)
    ensures Held(y, Step(y, op), k)
  {
    LockedIsNotIdle(c, At(y.s, k).value, y.clock, op.now);
    var y' := Step(y, op);
    if Touches(k, Attempted(op.ip, op.user)) {
      assert y'.inflight == y.inflight;
    }
    SameHeld(y, y', k);
  }

  lemma FailsHeld(c: LiveConfig, y: Sys, op: Op, k: Key)
    requires Fits(c) && SoundSys(c, y) && Enabled(y, op) && op.Fails? && op.now < LockOf(y, k)
    ensures Held(y, Step(y, op), k)
  {
    FailExtends(c, At(y.s, k).value, y.clock, op.now);
    var y' := Step(y, op);
    assert Pending(y', k) == Pending(y, k) - {op.id};
    if Touches(k, y.inflight[op.id]) {
      assert op.id in Pending(y, k);
    } else {
      SameHeld(y, y', k);
    }
  }

  lemma StepHeld(c: LiveConfig, y: Sys, op: Op, k: Key)
    requires Fits(c) && SoundSys(c, y) && Enabled(y, op) && Spares(y, op, k) && op.now < LockOf(y, k)
    ensures Held(y, Step(y, op), k)
  {
    if op.Begin? {
      BeginHeld(c, y, op, k);
    } else if op.Fails? {
      FailsHeld(c, y, op, k);
    } else {
      LockedIsNotIdle(c, At(y.s, k).value, y.clock, op.now);
      assert Pending(Step(y, op), k) == Pending(y, k);
      SameHeld(y, Step(y, op), k);
    }
  }

  lemma HeldTransitive(y0: Sys, y1: Sys, y2: Sys, k: Key)
    requires Held(y0, y1, k) && Held(y1, y2, k)
    ensures Held(y0, y2, k)
  {
  }

  /** While a key is locked, and whatever else runs: its lock never moves earlier, no new login
      passes Check on it, and every failure counted against it is that of a login which had
      already passed, each of them once. */
  lemma {:induction false} LockedKeyHolds(c: LiveConfig, y: Sys, w: seq<Op>, k: Key)
    requires Fits(c) && SoundSys(c, y) && LockedRun(y, w, k)
    ensures CanRun(y, w) && Held(y, Run(y, w), k)
    decreases w
  {
    LockedRunIsRun(y, w, k);
    if w == [] {
    } else {
      StepHeld(c, y, w[0], k);
      StepSound(c, y, w[0]);
      LockedKeyHolds(c, Step(y, w[0]), w[1..], k);
      HeldTransitive(y, Step(y, w[0]), Run(y, w), k);
    }
  }

  /** The same from the start of the server: after any run of interleaved logins. */
  lemma LockedKeyHoldsInEveryRun(c: LiveConfig, before: seq<Op>, w: seq<Op>, k: Key)
    requires Fits(c) && CanRun(Start(c), before) && NoEdits(before)
    requires LockedRun(Run(Start(c), before), w, k)
    ensures CanRun(Run(Start(c), before), w) && Held(Run(Start(c), before), Run(Run(Start(c), before), w), k)
  {
    RunSound(c, Start(c), before);
    LockedKeyHolds(c, Run(Start(c), before), w, k);
  }

  // ---- edited configurations ----

  /** The edits of a run, in order. */
  function Edits(w: seq<Op>): seq<Config> {
    if w == [] then [] else (if w[0].Edit? then [w[0].cfg] else []) + Edits(w[1..])
  }

  /** The configuration in force after some edits. */
  function InForce(c: LiveConfig, es: seq<Config>): LiveConfig
    decreases es
  {
    if es == [] then c else InForce(Merged(c, es[0]), es[1..])
  }

  /** No configuration in force at any time overflows. */
  predicate AllFit(c: LiveConfig, es: seq<Config>)
    decreases es
  {
    Fits(c) && (es != [] ==> AllFit(Merged(c, es[0]), es[1..]))
  }

  /** The largest backoff cap in force at any time. */
  function Peak(c: LiveConfig, es: seq<Config>): int
    decreases es
  {
    if es == [] then c.max
    else
      var later := Peak(Merged(c, es[0]), es[1..]);
      if c.max > later then c.max else later
  }

  /** A lock reaches at most a given cap beyond the last failure. */
  predicate Bounded(v: View, peak: int, clock: int) {
    0 <= v.lastSeen <= clock && v.lockoutUntil <= v.lastSeen + peak * MINUTE
  }

  predicate BoundedSys(y: Sys, peak: int) {
    && (forall k :: k in y.s.byIP ==> Bounded(y.s.byIP[k], peak, y.clock))
    && (forall k :: k in y.s.byUser ==> Bounded(y.s.byUser[k], peak, y.clock))
  }

  lemma FailBounded(c: LiveConfig, v: View, peak: int, now: int)
    requires Fits(c) && c.max <= peak && 0 <= now && Bounded(v, peak, now)
    ensures Bounded(Fail(c, v, now), peak, now)
  {
    LockoutExact(c, v.backoffStep);
  }

  lemma StepBounded(y: Sys, op: Op, peak: int)
    requires Enabled(y, op) && BoundedSys(y, peak) && Fits(y.s.cfg) && y.s.cfg.max <= peak
    ensures BoundedSys(Step(y, op), peak)
    ensures Step(y, op).s.cfg == if op.Edit? then Merged(y.s.cfg, op.cfg) else y.s.cfg
  {
    if op.Fails? {
      var a := y.inflight[op.id];
      FailBounded(y.s.cfg, GetOrNew(y.s.byIP, a.ip, op.now), peak, op.now);
      FailBounded(y.s.cfg, GetOrNew(y.s.byUser, a.user, op.now), peak, op.now);
    }
  }

  /** Taking the first edit off a run. */
  lemma FirstEdit(c: LiveConfig, op: Op, w: seq<Op>)
    requires AllFit(c, Edits([op] + w))
    ensures var es, c' := Edits([op] + w), if op.Edit? then Merged(c, op.cfg) else c;
            && Fits(c) && c.max <= Peak(c, es) && Peak(c', Edits(w)) <= Peak(c, es)
            && AllFit(c', Edits(w)) && InForce(c, es) == InForce(c', Edits(w))
  {
    assert ([op] + w)[1..] == w;
    if op.Edit? {
      assert ([op.cfg] + Edits(w))[1..] == Edits(w);
    } else {
      assert [] + Edits(w) == Edits(w);
    }
  }

  /** In every reachable state of an edited server, no lock reaches further beyond its last
      failure than the largest cap in force so far. */
  lemma {:induction false} RunBounded(y: Sys, w: seq<Op>, peak: int)
    requires CanRun(y, w) && BoundedSys(y, peak)
    requires AllFit(y.s.cfg, Edits(w)) && Peak(y.s.cfg, Edits(w)) <= peak
    ensures BoundedSys(Run(y, w), peak) && Run(y, w).s.cfg == InForce(y.s.cfg, Edits(w))
    decreases w
  {
    if w == [] {
    } else {
      assert w == [w[0]] + w[1..];
      FirstEdit(y.s.cfg, w[0], w[1..]);
      StepBounded(y, w[0], peak);
      RunBounded(Step(y, w[0]), w[1..], peak);
    }
  }

  /** Check with the cleaning left out. */
  function RawVerdict(s: State, ip: string, user: string, now: int): Verdict {
    if Locked(s.byIP, ip, now) then IPLocked
    else if Locked(s.byUser, user, now) then AccountLocked
    else Allowed
  }

  /** Cleaning spares a tracker's lock at every time if and only if the lock ends no later than
      one tick after the window does. */
  lemma CleaningSparesExactly(c: LiveConfig, v: View)
    ensures (forall now: int :: now < v.lockoutUntil ==> !Idle(c, v, now))
            <==> v.lockoutUntil <= v.lastSeen + WindowNanos(c) + 1
  {
    if v.lockoutUntil > v.lastSeen + WindowNanos(c) + 1 {
      assert Idle(c, v, v.lastSeen + WindowNanos(c) + 1);
    }
  }

  lemma BoundedLocksSpared(y: Sys, peak: int, now: nat)
    requires BoundedSys(y, peak) && peak * MINUTE <= WindowNanos(y.s.cfg) + 1
    ensures forall k {:trigger At(y.s, k)} :: At(y.s, k).Some? && now < At(y.s, k).value.lockoutUntil ==>
      Clean(y.s.cfg, At(y.s, k).value, now) == At(y.s, k).value
    ensures forall ip, user :: Check(y.s, ip, user, now).1 == RawVerdict(y.s, ip, user, now)
  {
    forall k {:trigger At(y.s, k)} | At(y.s, k).Some? && now < At(y.s, k).value.lockoutUntil
      ensures !Idle(y.s.cfg, At(y.s, k).value, now)
    {
      CleaningSparesExactly(y.s.cfg, At(y.s, k).value);
    }
    forall ip, user
      ensures Check(y.s, ip, user, now).1 == RawVerdict(y.s, ip, user, now)
    {
      assert At(y.s, IP(ip)).Some? <==> ip in y.s.byIP;
      assert At(y.s, User(user)).Some? <==> user in y.s.byUser;
    }
  }

  /** Cleaning never ends a live lock while the window is at least the largest cap so far: in
      every reachable state it leaves locked trackers alone, and Check answers the same with or
      without it. */
  lemma CleaningKeepsLocks(c: LiveConfig, w: seq<Op>, now: nat)
    requires CanRun(Start(c), w) && AllFit(c, Edits(w))
    requires Peak(c, Edits(w)) <= WindowMinutes(InForce(c, Edits(w)))
    ensures var s := Run(Start(c), w).s;
            && (forall k {:trigger At(s, k)} :: At(s, k).Some? && now < At(s, k).value.lockoutUntil ==>
                  Clean(s.cfg, At(s, k).value, now) == At(s, k).value)
            && (forall ip, user :: Check(s, ip, user, now).1 == RawVerdict(s, ip, user, now))
  {
    var peak := Peak(c, Edits(w));
    RunBounded(Start(c), w, peak);
    LastFits(c, Edits(w));
    WindowExact(InForce(c, Edits(w)));
    BoundedLocksSpared(Run(Start(c), w), peak, now);
  }

  lemma {:induction false} LastFits(c: LiveConfig, es: seq<Config>)
    requires AllFit(c, es)
    ensures Fits(InForce(c, es))
    decreases es
  {
    if es == [] {
    } else {
      LastFits(Merged(c, es[0]), es[1..]);
    }
  }

  // ---- edits that are not careful ----

  lemma RunCons(y: Sys, op: Op, w: seq<Op>)
    requires Enabled(y, op) && CanRun(Step(y, op), w)
    ensures CanRun(y, [op] + w) && Run(y, [op] + w) == Run(Step(y, op), w)
  {
    assert ([op] + w)[1..] == w;
  }

  lemma {:induction false} RunConcat(y: Sys, a: seq<Op>, b: seq<Op>)
    requires CanRun(y, a) && CanRun(Run(y, a), b)
    ensures CanRun(y, a + b) && Run(y, a + b) == Run(Run(y, a), b)
    decreases a
  {
    if a == [] {
      assert a + b == b;
    } else {
      var y' := Step(y, a[0]);
      RunConcat(y', a[1..], b);
      RunCons(y, a[0], a[1..] + b);
      assert a + b == [a[0]] + (a[1..] + b);
    }
  }

  lemma {:induction false} EditsConcat(a: seq<Op>, b: seq<Op>)
    ensures Edits(a + b) == Edits(a) + Edits(b)
  {
    if a == [] {
      assert a + b == b;
    } else {
      EditsConcat(a[1..], b);
      assert (a + b)[1..] == a[1..] + b;
      Associates(if a[0].Edit? then [a[0].cfg] else [], Edits(a[1..]), Edits(b));
    }
  }

  lemma RunSnoc(y: Sys, w: seq<Op>, op: Op)
    requires CanRun(y, w) && Enabled(Run(y, w), op)
    ensures CanRun(y, w + [op]) && Run(y, w + [op]) == Step(Run(y, w), op)
    ensures !op.Edit? ==> Edits(w + [op]) == Edits(w)
  {
    assert CanRun(Step(Run(y, w), op), []);
    RunCons(Run(y, w), op, []);
    assert [op] + [] == [op];
    RunConcat(y, w, [op]);
    EditsConcat(w, [op]);
  }

  /** The edits alone, all at the start of the clock. */
  lemma {:induction false} RunEdits(y: Sys, es: seq<Config>) returns (w: seq<Op>)
    requires y.clock == 0
    ensures CanRun(y, w) && Edits(w) == es
    ensures Run(y, w) == y.(s := y.s.(cfg := InForce(y.s.cfg, es)))
    decreases es
  {
    if es == [] {
      w := [];
    } else {
      var op := Edit(es[0], 0);
      var rest := RunEdits(Step(y, op), es[1..]);
      w := [op] + rest;
      assert w[1..] == rest;
      assert es == [es[0]] + es[1..];
    }
  }

  /** A tracker after k failures at the start of the clock. */
  function Struck(c: LiveConfig, k: nat): View {
    if k == 0 then View(0, ZERO_TIME, 0, 0) else Fail(c, Struck(c, k - 1), 0)
  }

  function Below(n: nat): (ids: set<nat>)
    ensures forall id: nat :: id in ids <==> id < n
  {
    if n == 0 then {} else Below(n - 1) + {n - 1}
  }

  /** Of n logins on one address and one username, all begun, k have failed. */
  function Striking(c: LiveConfig, n: nat, k: nat): Sys
    requires k <= n
  {
    Sys(if k == 0 then Initial(c) else State(map["a" := Struck(c, k)], map["u" := Struck(c, k)], c),
        map id | id in Below(n) - Below(k) :: Attempted("a", "u"), 0)
  }

  lemma {:induction false} RunBegins(c: LiveConfig, n: nat) returns (w: seq<Op>)
    ensures CanRun(Start(c), w) && Edits(w) == [] && Run(Start(c), w) == Striking(c, n, 0)
  {
    if n == 0 {
      w := [];
      assert Striking(c, 0, 0).inflight == map[];
    } else {
      var front := RunBegins(c, n - 1);
      var op := Begin(n - 1, "a", "u", 0);
      assert Step(Striking(c, n - 1, 0), op).inflight == Striking(c, n, 0).inflight;
      RunSnoc(Start(c), front, op);
      w := front + [op];
    }
  }

  lemma StrikeOnce(c: LiveConfig, n: nat, k: nat)
    requires k < n
    ensures Enabled(Striking(c, n, k), Fails(k, 0))
    ensures Step(Striking(c, n, k), Fails(k, 0)) == Striking(c, n, k + 1)
  {
    var y, y' := Striking(c, n, k), Step(Striking(c, n, k), Fails(k, 0));
    assert y.inflight[k] == Attempted("a", "u");
    assert y'.inflight == Striking(c, n, k + 1).inflight;
    assert y'.s.byIP == map["a" := Struck(c, k + 1)];
    assert y'.s.byUser == map["u" := Struck(c, k + 1)];
  }

  lemma StrikeAfter(c: LiveConfig, n: nat, k: nat, front: seq<Op>)
    requires k < n && CanRun(Start(c), front) && Edits(front) == [] && Run(Start(c), front) == Striking(c, n, k)
    ensures var w := front + [Fails(k, 0)];
            CanRun(Start(c), w) && Edits(w) == [] && Run(Start(c), w) == Striking(c, n, k + 1)
  {
    StrikeOnce(c, n, k);
    RunSnoc(Start(c), front, Fails(k, 0));
  }

  /** Any number of logins that have all passed Check may all fail. */
  lemma {:induction false} RunStrikes(c: LiveConfig, n: nat, k: nat) returns (w: seq<Op>)
    requires k <= n
    ensures CanRun(Start(c), w) && Edits(w) == [] && Run(Start(c), w) == Striking(c, n, k)
  {
    if k == 0 {
      w := RunBegins(c, n);
    } else {
      var front := RunStrikes(c, n, k - 1);
      StrikeAfter(c, n, k - 1, front);
      w := front + [Fails(k - 1, 0)];
    }
  }

  lemma {:induction false} StruckShows(c: LiveConfig, k: nat)
    requires Fits(c)
    ensures var v := Struck(c, k);
            && v.failures == k && v.lastSeen == 0
            && v.backoffStep == (if k < c.maxAttempts then 0 else k - c.maxAttempts + 1)
            && (k >= c.maxAttempts ==> v.lockoutUntil == Lockout(c, k - c.maxAttempts) * MINUTE)
  {
    if k == 0 {
    } else {
      StruckShows(c, k - 1);
      if k >= c.maxAttempts {
        LockoutExact(c, k - c.maxAttempts);
      }
    }
  }

  lemma {:induction false} Pow2Exceeds(n: nat)
    ensures Pow2(n) > n
  {
    if n == 0 {
    } else {
      Pow2Exceeds(n - 1);
    }
  }

  /** Enough failures lock for the whole cap. */
  lemma FullLock(c: LiveConfig)
    requires Fits(c)
    ensures Struck(c, c.maxAttempts + c.max).lockoutUntil == c.max * MINUTE
    ensures Struck(c, c.maxAttempts + c.max).lastSeen == 0
  {
    StruckShows(c, c.maxAttempts + c.max);
    Pow2Exceeds(c.max);
    CapReached(c.base, Pow2(c.max), c.max);
  }

  lemma CapReached(base: int, p: int, cap: int)
    requires base >= 1 && p > cap >= 0
    ensures base * p > cap
  {
    assert base * p >= p;
  }

  lemma {:induction false} PeakReached(c: LiveConfig, es: seq<Config>) returns (i: nat)
    requires AllFit(c, es)
    ensures i <= |es| && InForce(c, es[..i]).max == Peak(c, es) && Fits(InForce(c, es[..i]))
    ensures InForce(InForce(c, es[..i]), es[i..]) == InForce(c, es)
    decreases es
  {
    if es == [] || c.max > Peak(Merged(c, es[0]), es[1..]) {
      i := 0;
      assert es[0..] == es;
    } else {
      var j := PeakReached(Merged(c, es[0]), es[1..]);
      i := j + 1;
      assert es[..i][0] == es[0] && es[..i][1..] == es[1..][..j];
      assert es[1..][j..] == es[i..];
    }
  }

  /** In the state that a run reaches, cleaning does not change what Check answers. */
  predicate Harmless(c: LiveConfig, es: seq<Config>, w: seq<Op>, now: nat, ip: string, user: string) {
    CanRun(Start(c), w) && Edits(w) == es && Run(Start(c), w).clock <= now ==>
      Check(Run(Start(c), w).s, ip, user, now).1 == RawVerdict(Run(Start(c), w).s, ip, user, now)
  }

  /** A run with the given edits in which logins fail under the i-th configuration. */
  lemma RunStruck(c: LiveConfig, es: seq<Config>, i: nat, n: nat) returns (w: seq<Op>)
    requires i <= |es| && InForce(InForce(c, es[..i]), es[i..]) == InForce(c, es)
    ensures CanRun(Start(c), w) && Edits(w) == es
    ensures var y := Striking(InForce(c, es[..i]), n, n);
            Run(Start(c), w) == y.(s := y.s.(cfg := InForce(c, es)))
  {
    var d := InForce(c, es[..i]);
    var before := RunEdits(Start(c), es[..i]);
    assert Run(Start(c), before) == Start(d);
    var strikes := RunStrikes(d, n, n);
    RunConcat(Start(c), before, strikes);
    EditsConcat(before, strikes);
    var after := RunEdits(Striking(d, n, n), es[i..]);
    RunConcat(Start(c), before + strikes, after);
    EditsConcat(before + strikes, after);
    w := before + strikes + after;
    assert Edits(w) == es[..i] + [] + es[i..];
    assert es[..i] + [] + es[i..] == es;
  }

  /** A full lock outlasts a shorter window: when the tracker has just become idle, it is still
      locked, and Check forgets it. */
  lemma LockOutlasts(d: LiveConfig, last: LiveConfig, now: nat)
    requires Fits(d) && now == WindowNanos(last) + 1 && now < d.max * MINUTE
    ensures var n := d.maxAttempts + d.max;
            var s := Striking(d, n, n).s.(cfg := last);
            Check(s, "a", "u", now).1 == Allowed && RawVerdict(s, "a", "u", now) == IPLocked
  {
    FullLock(d);
  }

  /** A run with the given edits in which a lock set for the largest cap outlasts the window. */
  lemma SomeLockOutlasts(c: LiveConfig, es: seq<Config>) returns (w: seq<Op>, now: nat)
    requires AllFit(c, es) && Peak(c, es) > WindowMinutes(InForce(c, es))
    ensures !Harmless(c, es, w, now, "a", "u")
  {
    var i := PeakReached(c, es);
    var d, last := InForce(c, es[..i]), InForce(c, es);
    w := RunStruck(c, es, i, d.maxAttempts + d.max);
    LastFits(c, es);
    WindowExact(last);
    now := WindowNanos(last) + 1;
    LockOutlasts(d, last, now);
  }

  /** Over all runs with given edits: cleaning never changes what Check answers exactly when the
      window now in force is at least every cap that was in force at any time. */
  lemma EditsSpareLocksExactly(c: LiveConfig, es: seq<Config>)
    requires AllFit(c, es)
    ensures (forall w, now, ip, user :: Harmless(c, es, w, now, ip, user))
            <==> Peak(c, es) <= WindowMinutes(InForce(c, es))
  {
    if Peak(c, es) <= WindowMinutes(InForce(c, es)) {
      forall w, now: nat, ip, user
        ensures Harmless(c, es, w, now, ip, user)
      {
        if CanRun(Start(c), w) && Edits(w) == es {
          CleaningKeepsLocks(c, w, now);
        }
      }
    } else {
      var w, now := SomeLockOutlasts(c, es);
    }
  }

  /** Without care an edit releases a locked key: 64 minutes become two. */
  lemma CarelessEditUnlocks()
    ensures var c: LiveConfig := Config(1, 15, 64, 64);
            var w := [Begin(0, "a", "u", 0), Fails(0, 0), Edit(Config(0, 1, 0, 1), 0)];
            && CanRun(Start(c), w)
            && LockOf(Run(Start(c), w), IP("a")) == 64 * MINUTE
            && Check(Run(Start(c), w).s, "a", "u", 3 * MINUTE).1 == Allowed
  {
    var c: LiveConfig := Config(1, 15, 64, 64);
    var y0 := Start(c);
    var y1 := Step(y0, Begin(0, "a", "u", 0));
    assert y1.inflight[0] == Attempted("a", "u") && y1.s == y0.s;
    var y2 := Step(y1, Fails(0, 0));
    LockoutExact(c, 0);
    assert Lockout(c, 0) == 64 by { assert Pow2(0) == 1; }
    var v := View(1, 64 * MINUTE, 1, 0);
    assert y2.s.byIP["a"] == v && y2.s.byUser["u"] == v;
    var e := Edit(Config(0, 1, 0, 1), 0);
    var y3 := Step(y2, e);
    var w := [Begin(0, "a", "u", 0), Fails(0, 0), e];
    assert w[1..] == [Fails(0, 0), e] && w[1..][1..] == [e] && [e][1..] == [];
    assert CanRun(y3, []) && CanRun(y2, [e]) && Run(y2, [e]) == y3;
    assert CanRun(y1, [Fails(0, 0), e]) && Run(y1, [Fails(0, 0), e]) == y3;
    assert Run(y0, w) == y3;
    assert WindowNanos(y3.s.cfg) == 2 * MINUTE;
  }
}
