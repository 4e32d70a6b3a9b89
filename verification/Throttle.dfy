/** The login throttle on values: what each operation of Bruteforce does to the
    per-address and per-username trackers. The class Bruteforce is proved against these
    functions, and the guarantees over whole runs are proved about them. */
module Throttle {
  import opened Common
  import opened Backoff

  /** The zero time.Time: before every clock reading that locks anything. */
  const ZERO_TIME: int := 0

  /** The four fields of an attemptTracker. */
  datatype View = View(failures: nat, lockoutUntil: int, backoffStep: nat, lastSeen: int)

  datatype State = State(byIP: map<string, View>, byUser: map<string, View>, cfg: LiveConfig)

  /** A tracker is named by an address or by a username; the two never share one. */
  datatype Key = IP(name: string) | User(name: string)

  datatype Verdict = Allowed | IPLocked | AccountLocked

  function Table(s: State, k: Key): map<string, View> {
    if k.IP? then s.byIP else s.byUser
  }

  function At(s: State, k: Key): Option<View> {
    if k.name in Table(s, k) then Some(Table(s, k)[k.name]) else None
  }

  function Initial(cfg: LiveConfig): State {
    State(map[], map[], cfg)
  }

  /** Missing or non-positive settings take the defaults. */
  function Normalized(c: Config): LiveConfig {
    Config(if c.maxAttempts <= 0 then 5 else c.maxAttempts,
           if c.window <= 0 then 15 else c.window,
           if c.base <= 0 then 1 else c.base,
           if c.max <= 0 then 64 else c.max)
  }

  /** A runtime edit replaces exactly the positive settings. */
  function Merged(old_: LiveConfig, c: Config): LiveConfig {
    Config(if c.maxAttempts > 0 then c.maxAttempts else old_.maxAttempts,
           if c.window > 0 then c.window else old_.window,
           if c.base > 0 then c.base else old_.base,
           if c.max > 0 then c.max else old_.max)
  }

  predicate Idle(c: LiveConfig, v: View, now: int) {
    now - v.lastSeen > WindowNanos(c)
  }

  function Clean(c: LiveConfig, v: View, now: int): View {
    if Idle(c, v, now) then v.(failures := 0, backoffStep := 0, lockoutUntil := ZERO_TIME) else v
  }

  function CleanKey(c: LiveConfig, m: map<string, View>, key: string, now: int): map<string, View> {
    if key in m then m[key := Clean(c, m[key], now)] else m
  }

  function CleanAll(c: LiveConfig, m: map<string, View>, now: int): map<string, View> {
    map key | key in m :: Clean(c, m[key], now)
  }

  predicate Locked(m: map<string, View>, key: string, now: int) {
    key in m && now < m[key].lockoutUntil
  }

  /** Check looks at the address first; a locked address leaves the username's tracker untouched. */
  function Check(s: State, ip: string, user: string, now: int): (State, Verdict) {
    var s1 := s.(byIP := CleanKey(s.cfg, s.byIP, ip, now));
    if Locked(s1.byIP, ip, now) then (s1, IPLocked) else
    var s2 := s1.(byUser := CleanKey(s.cfg, s.byUser, user, now));
    (s2, if Locked(s2.byUser, user, now) then AccountLocked else Allowed)
  }

  /** One more failure at a tracker, locking it from the MaxAttempts-th on. */
  function Fail(c: LiveConfig, v: View, now: int): View {
    var f := v.failures + 1;
    if f >= c.maxAttempts
    then View(f, now + LockoutNanos(c, v.backoffStep), v.backoffStep + 1, now)
    else View(f, v.lockoutUntil, v.backoffStep, now)
  }

  function GetOrNew(m: map<string, View>, key: string, now: int): View {
    if key in m then m[key] else View(0, ZERO_TIME, 0, now)
  }

  /** The table with one more failure counted at a key. */
  function Counted(c: LiveConfig, m: map<string, View>, key: string, now: int): map<string, View> {
    m[key := Fail(c, GetOrNew(m, key, now), now)]
  }

  /** Creating the tracker first and counting at it afterwards comes to the same table. */
  lemma CountedTwice(m: map<string, View>, key: string, c: LiveConfig, now: int)
    ensures var v := GetOrNew(m, key, now); m[key := v][key := Fail(c, v, now)] == Counted(c, m, key, now)
  {
  }

  function RecordFailure(s: State, ip: string, user: string, now: int): State {
    s.(byIP := Counted(s.cfg, s.byIP, ip, now), byUser := Counted(s.cfg, s.byUser, user, now))
  }

  function Reset(s: State, ip: string, user: string): State {
    s.(byIP := s.byIP - {ip}, byUser := s.byUser - {user})
  }

  function ResetByIP(s: State, ip: string): State {
    s.(byIP := s.byIP - {ip})
  }

  function ResetByUsername(s: State, user: string): State {
    s.(byUser := s.byUser - {user})
  }

  function ResetAll(s: State): State {
    s.(byIP := map[], byUser := map[])
  }

  function Refresh(s: State, now: int): State {
    s.(byIP := CleanAll(s.cfg, s.byIP, now), byUser := CleanAll(s.cfg, s.byUser, now))
  }

  function UpdateConfig(s: State, c: Config): State {
    s.(cfg := Merged(s.cfg, c))
  }

  /** A whole login attempt: check, then a failure or a reset according to the credentials. */
  function Attempt(s: State, ip: string, user: string, good: bool, now: int): (State, Verdict) {
    var (s1, v) := Check(s, ip, user, now);
    (if v != Allowed then s1
     else if good then Reset(s1, ip, user)
     else RecordFailure(s1, ip, user, now), v)
  }
}
