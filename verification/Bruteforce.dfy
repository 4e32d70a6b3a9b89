/** Bruteforce and its heap of attempt trackers, proved against module Throttle. */
module Bruteforce {
  import opened Backoff
  import opened ThrottleSettings
  import T = Throttle

  class Tracker {
    ghost const home: Table  // the one map, and
    ghost const key: string  // the one entry of it, that own this tracker
    var failures: nat
    var lockoutUntil: int
    var backoffStep: nat
    var lastSeen: int

    constructor (ghost home: Table, ghost key: string, now: int)
      ensures this.home == home && this.key == key && View() == T.View(0, T.ZERO_TIME, 0, now)
    {
      this.home := home;
      this.key := key;
      failures := 0;
      lockoutUntil := T.ZERO_TIME;
      backoffStep := 0;
      lastSeen := now;
    }

    ghost function View(): T.View
      reads this
    {
      T.View(failures, lockoutUntil, backoffStep, lastSeen)
    }

    method Clean(cfg: LiveConfig, now: int)
      modifies this
      ensures View() == T.Clean(cfg, old(View()), now)
    {
      var window := WindowNanos(cfg);
      if now - lastSeen > window {
        failures := 0;
        backoffStep := 0;
        lockoutUntil := T.ZERO_TIME;
      }
    }

    /** Counts one failure and locks the tracker when the threshold is reached. */
    method Fail(cfg: LiveConfig, now: int)
      modifies this
      ensures View() == T.Fail(cfg, old(View()), now)
    {
      failures := failures + 1;
      lastSeen := now;
      if failures >= cfg.maxAttempts {
        lockoutUntil := now + LockoutNanos(cfg, backoffStep);
        backoffStep := backoffStep + 1;
      }
    }
  }

  datatype LockInfo = LockInfo(key: string, failures: nat, lockoutUntil: int)

  /** The lock list GetState builds from one map: exactly one entry per key that counts failures. */
  ghost predicate Reports(locks: seq<LockInfo>, keys: set<string>, m: map<string, T.View>)
    requires keys <= m.Keys
  {
    && (forall i, j :: 0 <= i < j < |locks| ==> locks[i].key != locks[j].key)
    && (forall i :: 0 <= i < |locks| ==> Reported(locks[i], keys, m))
    && (forall key :: key in keys && m[key].failures > 0 ==> exists i :: 0 <= i < |locks| && locks[i].key == key)
  }

  ghost predicate Reported(l: LockInfo, keys: set<string>, m: map<string, T.View>)
    requires keys <= m.Keys
  {
    l.key in keys && m[l.key].failures > 0 && l == LockInfo(l.key, m[l.key].failures, m[l.key].lockoutUntil)
  }

  /** The list names exactly the keys that count failures, each once, with their count and lock. */
  lemma ReportsExactly(locks: seq<LockInfo>, m: map<string, T.View>, key: string, failures: nat, until: int)
    requires Reports(locks, m.Keys, m)
    ensures LockInfo(key, failures, until) in locks <==>
            key in m && m[key].failures > 0 && failures == m[key].failures && until == m[key].lockoutUntil
    ensures |locks| == |set key | key in m && m[key].failures > 0|
  {
    if key in m && m[key].failures > 0 {
      var i :| 0 <= i < |locks| && locks[i].key == key;
      assert Reported(locks[i], m.Keys, m);
    }
    if LockInfo(key, failures, until) in locks {
      var i :| 0 <= i < |locks| && locks[i] == LockInfo(key, failures, until);
      assert Reported(locks[i], m.Keys, m);
    }
    var named := set l | l in locks :: l.key;
    assert forall i :: 0 <= i < |locks| ==> Reported(locks[i], m.Keys, m);
    assert named == set key | key in m && m[key].failures > 0;
    KeysCounted(locks);
  }

  lemma {:induction false} KeysCounted(locks: seq<LockInfo>)
    requires forall i, j :: 0 <= i < j < |locks| ==> locks[i].key != locks[j].key
    ensures |set l | l in locks :: l.key| == |locks|
  {
    if locks == [] {
    } else {
      var front, last := locks[..|locks| - 1], locks[|locks| - 1];
      KeysCounted(front);
      assert locks == front + [last];
      assert (set l | l in locks :: l.key) == (set l | l in front :: l.key) + {last.key};
      assert last.key !in (set l | l in front :: l.key);
    }
  }

  lemma ReportOne(locks: seq<LockInfo>, keys: set<string>, key: string, m: map<string, T.View>)
    requires keys <= m.Keys && Reports(locks, keys, m) && key in m && key !in keys
    ensures m[key].failures == 0 ==> Reports(locks, keys + {key}, m)
    ensures m[key].failures > 0 ==>
      Reports(locks + [LockInfo(key, m[key].failures, m[key].lockoutUntil)], keys + {key}, m)
  {
    if m[key].failures > 0 {
      var locks' := locks + [LockInfo(key, m[key].failures, m[key].lockoutUntil)];
      assert locks'[|locks|].key == key;
      forall k | k in keys + {key} && m[k].failures > 0
        ensures exists i :: 0 <= i < |locks'| && locks'[i].key == k
      {
        if k != key {
          var i :| 0 <= i < |locks| && locks[i].key == k;
          assert locks'[i].key == k;
        }
      }
    }
  }

  /** Trackers only ever join a footprint by being allocated. */
  twostate predicate FreshSince(new repr: set<Tracker>, before: set<Tracker>) {
    forall t :: t in repr ==> t in before || fresh(t)
  }

  /** A map[string]*attemptTracker. */
  class Table {
    var m: map<string, Tracker>
    ghost var views: map<string, T.View>  // the values behind the pointers
    ghost var repr: set<Tracker>

    /** Each tracker belongs to the map and the entry it is stored under, so distinct keys never share one. */
    ghost predicate Valid()
      reads this, repr
    {
      && m.Keys == views.Keys
      && (forall t :: t in repr ==> t.home == this)
      && (forall k :: k in m ==> m[k] in repr && m[k].key == k && m[k].View() == views[k])
    }

    constructor ()
      ensures Valid() && views == map[] && repr == {}
    {
      m, views, repr := map[], map[], {};
    }

    method GetOrCreate(key: string, now: int) returns (t: Tracker)
      requires Valid()
      modifies this
      ensures Valid() && FreshSince(repr, old(repr))
      ensures views == old(views)[key := T.GetOrNew(old(views), key, now)]
      ensures key in m && t == m[key]
    {
      if key in m {
        t := m[key];
      } else {
        t := new Tracker(this, key, now);
        m := m[key := t];
        repr := repr + {t};
      }
      views := views[key := T.GetOrNew(views, key, now)];
    }

    method CleanKey(key: string, cfg: LiveConfig, now: int)
      requires Valid() && key in m
      modifies this`views, repr
      ensures Valid()
      ensures views == T.CleanKey(cfg, old(views), key, now)
    {
      var t := m[key];
      t.Clean(cfg, now);
      views := T.CleanKey(cfg, views, key, now);
    }

    method Fail(key: string, t: Tracker, cfg: LiveConfig, now: int)
      requires Valid() && key in m && m[key] == t
      modifies this`views, t
      ensures Valid()
      ensures views == old(views)[key := T.Fail(cfg, old(views)[key], now)]
    {
      t.Fail(cfg, now);
      views := views[key := T.Fail(cfg, views[key], now)];
    }

    method Remove(key: string)
      requires Valid()
      modifies this`m, this`views
      ensures Valid() && views == old(views) - {key}
    {
      m := m - {key};
      views := views - {key};
    }

    /** One turn of the collecting loop. */
    method CollectOne(key: string, cfg: LiveConfig, now: int, locks: seq<LockInfo>,
                      ghost seen: set<string>, ghost w: map<string, T.View>)
      returns (locks': seq<LockInfo>)
      requires Valid() && key in m && seen <= w.Keys == m.Keys && key !in seen
      requires w[key] == T.Clean(cfg, views[key], now) && Reports(locks, seen, w)
      modifies this`views, repr
      ensures Valid() && views == old(views)[key := w[key]]
      ensures Reports(locks', seen + {key}, w)
    {
      CleanKey(key, cfg, now);
      var t := m[key];
      ReportOne(locks, seen, key, w);
      locks' := if t.failures > 0 then locks + [LockInfo(key, t.failures, t.lockoutUntil)] else locks;
    }

    /** Cleans every tracker, in any order, and lists those that still count failures. */
    method Collect(cfg: LiveConfig, now: int) returns (locks: seq<LockInfo>)
      requires Valid()
      modifies this`views, repr
      ensures Valid() && views == T.CleanAll(cfg, old(views), now)
      ensures Reports(locks, views.Keys, views)
    {
      locks := [];
      var todo := m.Keys;
      ghost var seen, w := {}, T.CleanAll(cfg, views, now);
      while todo != {}
        invariant Valid() && todo == m.Keys - seen && seen <= m.Keys
        invariant forall k :: k in m ==> views[k] == if k in seen then w[k] else old(views)[k]
        invariant Reports(locks, seen, w)
        decreases todo
      {
        var key :| key in todo;
        locks := CollectOne(key, cfg, now, locks, seen, w);
        todo, seen := todo - {key}, seen + {key};
      }
      assert seen == m.Keys;
    }
  }

  class Bruteforce {
    var byIP: Table
    var byUser: Table
    var cfg: LiveConfig

    ghost predicate Valid()
      reads this, byIP, byUser, byIP.repr, byUser.repr
    {
      byIP != byUser && byIP.Valid() && byUser.Valid()
    }

    /** What the maps, their trackers and the settings stand for. */
    ghost function Abs(): T.State
      reads this, byIP, byUser
    {
      T.State(byIP.views, byUser.views, cfg)
    }

    constructor (c: Config)
      ensures Valid() && fresh(byIP) && fresh(byUser)
      ensures Abs() == T.Initial(T.Normalized(c)) && Defaulted(c, cfg)
    {
      byIP := new Table();
      byUser := new Table();
      cfg := Config(if c.maxAttempts <= 0 then 5 else c.maxAttempts,
                    if c.window <= 0 then 15 else c.window,
                    if c.base <= 0 then 1 else c.base,
                    if c.max <= 0 then 64 else c.max);
    }

    method Check(ip: string, username: string, now: int) returns (verdict: T.Verdict)
      requires Valid()
      modifies byIP`views, byUser`views, byIP.repr, byUser.repr
      ensures Valid()
      ensures (Abs(), verdict) == T.Check(old(Abs()), ip, username, now)
    {
      if ip in byIP.m {
        byIP.CleanKey(ip, cfg, now);
        if now < byIP.m[ip].lockoutUntil {
          return T.IPLocked;
        }
      }
      if username in byUser.m {
        byUser.CleanKey(username, cfg, now);
        if now < byUser.m[username].lockoutUntil {
          return T.AccountLocked;
        }
      }
      verdict := T.Allowed;
    }

    /** The two getOrCreate calls of RecordFailure. */
    method BothTrackers(ip: string, username: string, now: int) returns (ipTracker: Tracker, userTracker: Tracker)
      requires Valid()
      modifies byIP, byUser
      ensures Valid() && FreshSince(byIP.repr, old(byIP.repr)) && FreshSince(byUser.repr, old(byUser.repr))
      ensures byIP.views == old(byIP.views)[ip := T.GetOrNew(old(byIP.views), ip, now)]
      ensures byUser.views == old(byUser.views)[username := T.GetOrNew(old(byUser.views), username, now)]
      ensures ip in byIP.m && ipTracker == byIP.m[ip] && username in byUser.m && userTracker == byUser.m[username]
    {
      ipTracker := byIP.GetOrCreate(ip, now);
      userTracker := byUser.GetOrCreate(username, now);
    }

    /** Counts the failure at both trackers. */
    method FailBoth(ip: string, ipTracker: Tracker, username: string, userTracker: Tracker, now: int)
      requires Valid()
      requires ip in byIP.m && ipTracker == byIP.m[ip] && username in byUser.m && userTracker == byUser.m[username]
      modifies byIP`views, byUser`views, ipTracker, userTracker
      ensures Valid()
      ensures byIP.views == old(byIP.views)[ip := T.Fail(cfg, old(byIP.views)[ip], now)]
      ensures byUser.views == old(byUser.views)[username := T.Fail(cfg, old(byUser.views)[username], now)]
    {
      byIP.Fail(ip, ipTracker, cfg, now);
      byUser.Fail(username, userTracker, cfg, now);
    }

    method RecordFailure(ip: string, username: string, now: int)
      requires Valid()
      modifies byIP, byUser, byIP.repr, byUser.repr
      ensures Valid() && FreshSince(byIP.repr, old(byIP.repr)) && FreshSince(byUser.repr, old(byUser.repr))
      ensures Abs() == T.RecordFailure(old(Abs()), ip, username, now)
    {
      T.CountedTwice(byIP.views, ip, cfg, now);
      T.CountedTwice(byUser.views, username, cfg, now);
      var ipTracker, userTracker := BothTrackers(ip, username, now);
      FailBoth(ip, ipTracker, username, userTracker, now);
    }

    method Reset(ip: string, username: string)
      requires Valid()
      modifies byIP`m, byIP`views, byUser`m, byUser`views
      ensures Valid()
      ensures Abs() == T.Reset(old(Abs()), ip, username)
    {
      byIP.Remove(ip);
      byUser.Remove(username);
    }

    method ResetByIP(ip: string)
      requires Valid()
      modifies byIP`m, byIP`views
      ensures Valid()
      ensures Abs() == T.ResetByIP(old(Abs()), ip)
    {
      byIP.Remove(ip);
    }

    method ResetByUsername(username: string)
      requires Valid()
      modifies byUser`m, byUser`views
      ensures Valid()
      ensures Abs() == T.ResetByUsername(old(Abs()), username)
    {
      byUser.Remove(username);
    }

    method ResetAll()
      requires Valid()
      modifies this`byIP, this`byUser
      ensures Valid() && fresh(byIP) && fresh(byUser)
      ensures Abs() == T.ResetAll(old(Abs()))
    {
      byIP := new Table();
      byUser := new Table();
    }

    method UpdateConfig(c: Config)
      requires Valid()
      modifies this`cfg
      ensures Valid()
      ensures Abs() == T.UpdateConfig(old(Abs()), c) && Edited(old(cfg), c, cfg)
    {
      var d: LiveConfig := cfg;
      if c.maxAttempts > 0 { d := d.(maxAttempts := c.maxAttempts); }
      if c.window > 0 { d := d.(window := c.window); }
      if c.base > 0 { d := d.(base := c.base); }
      if c.max > 0 { d := d.(max := c.max); }
      cfg := d;
    }

    method GetState(now: int) returns (c: LiveConfig, ipLocks: seq<LockInfo>, userLocks: seq<LockInfo>)
      requires Valid()
      modifies byIP`views, byUser`views, byIP.repr, byUser.repr
      ensures Valid()
      ensures c == cfg && Abs() == T.Refresh(old(Abs()), now)
      ensures Reports(ipLocks, Abs().byIP.Keys, Abs().byIP)
      ensures Reports(userLocks, Abs().byUser.Keys, Abs().byUser)
    {
      ipLocks := byIP.Collect(cfg, now);
      userLocks := byUser.Collect(cfg, now);
      c := cfg;
    }

    /** The throttle's part of a login: the outcome of the password check arrives as `good`. */
    method Attempt(ip: string, username: string, good: bool, now: int) returns (verdict: T.Verdict)
      requires Valid()
      modifies byIP, byUser, byIP.repr, byUser.repr
      ensures Valid() && FreshSince(byIP.repr, old(byIP.repr)) && FreshSince(byUser.repr, old(byUser.repr))
      ensures (Abs(), verdict) == T.Attempt(old(Abs()), ip, username, good, now)
    {
      verdict := Check(ip, username, now);
      if verdict != T.Allowed {
        return;
      }
      if good {
        Reset(ip, username);
      } else {
        RecordFailure(ip, username, now);
      }
    }
  }
}
