/** The login handler over the mutable throttle, the account service and the shared audit log. */
module LoginEndpoint {
  import opened Common
  import A = Accounts
  import AuditLog
  import B = Bruteforce
  import F = LoginFlow
  import L = Logins
  import Q = AuditQuery
  import S = Service
  import T = Throttle

  // ---- login events as audit events ----

  function Text(a: F.Action): string {
    match a
    case LoginLocked => "login_locked"
    case LoginFailed => "login_failed"
    case LoginUnapproved => "login_unapproved"
    case LoginSuccess => "login_success"
    case Other(text) => text
  }

  /** What an action in the log is taken for, whoever wrote it. */
  function Action(text: string): F.Action {
    if text == "login_locked" then F.LoginLocked
    else if text == "login_failed" then F.LoginFailed
    else if text == "login_unapproved" then F.LoginUnapproved
    else if text == "login_success" then F.LoginSuccess
    else F.Other(text)
  }

  lemma TextAndBack(a: F.Action)
    ensures !a.Other? ==> Action(Text(a)) == a
    ensures Text(Action(Text(a))) == Text(a)
  {
  }

  /** The audit event says what the login event does. */
  predicate Tells(e: Q.Event, f: F.Event) {
    Action(e.action) == f.action && e.user == f.user && e.ip == f.ip && e.time == f.time
  }

  predicate AllTell(es: seq<Q.Event>, fs: seq<F.Event>) {
    |es| == |fs| && forall i :: 0 <= i < |es| ==> Tells(es[i], fs[i])
  }

  function Count(fs: seq<F.Event>, a: F.Action): nat {
    if fs == [] then 0 else Count(Front(fs), a) + if Last(fs).action == a then 1 else 0
  }

  lemma CountSnoc(fs: seq<F.Event>, f: F.Event, a: F.Action)
    ensures Count(fs + [f], a) == Count(fs, a) + if f.action == a then 1 else 0
  {
    assert Front(fs + [f]) == fs;
  }

  lemma TellSnoc(es: seq<Q.Event>, fs: seq<F.Event>, e: Q.Event, f: F.Event)
    requires AllTell(es, fs) && Tells(e, f)
    ensures AllTell(es + [e], fs + [f])
  {
  }

  // ---- the handlers ----

  predicate Succeeded(events: seq<F.Event>) {
    events != [] && events[0].action == F.LoginSuccess
  }

  /** The sessions after a login: one more, with the role of the account, if it succeeded. */
  function Sessions(before: map<string, A.Session>, events: seq<F.Event>, tok: string, name: string,
                    accounts: map<string, A.Account>, expires: int): map<string, A.Session> {
    if Succeeded(events) && name in accounts then before[tok := A.Session(name, accounts[name].role, expires)] else before
  }

  /** Adds one login event to the shared log, whose counters follow. */
  method RecordOne(log: AuditLog.Log, f: F.Event, detail: string) returns (ghost e: Q.Event)
    requires log.Valid() && log.Open() && !f.action.Other?
    modifies log`events, log`logins, log`loginFails, log`history, log.store
    ensures log.Valid() && log.Open()
    ensures log.history == old(log.history) + [e] && Tells(e, f)
    ensures log.logins == old(log.logins) + if f.action == F.LoginSuccess then 1 else 0
    ensures log.loginFails == old(log.loginFails) + if f.action == F.LoginFailed then 1 else 0
  {
    var event := Q.Event(f.time, Text(f.action), f.user, f.ip, detail, "", "", "", 0, "", 0, 0, "", "");
    TextAndBack(f.action);
    AuditLog.OneMore(log.history, event);
    log.AddEvent(event, f.time);
    e := event;
  }

  /** Adds the events of one request. */
  method Record(log: AuditLog.Log, fs: seq<F.Event>, detail: string) returns (ghost es: seq<Q.Event>)
    requires log.Valid() && log.Open() && forall f :: f in fs ==> !f.action.Other?
    modifies log`events, log`logins, log`loginFails, log`history, log.store
    ensures log.Valid() && log.Open()
    ensures log.history == old(log.history) + es && AllTell(es, fs)
    ensures log.logins == old(log.logins) + Count(fs, F.LoginSuccess)
    ensures log.loginFails == old(log.loginFails) + Count(fs, F.LoginFailed)
  {
    es := [];
    for i := 0 to |fs|
      invariant log.Valid() && log.Open()
      invariant log.history == old(log.history) + es && AllTell(es, fs[..i])
      invariant log.logins == old(log.logins) + Count(fs[..i], F.LoginSuccess)
      invariant log.loginFails == old(log.loginFails) + Count(fs[..i], F.LoginFailed)
    {
      ghost var e := RecordOne(log, fs[i], detail);
      TellSnoc(es, fs[..i], e, fs[i]);
      CountSnoc(fs[..i], fs[i], F.LoginSuccess);
      CountSnoc(fs[..i], fs[i], F.LoginFailed);
      assert fs[..i + 1] == fs[..i] + [fs[i]];
      Associates(old(log.history), es, [e]);
      es := es + [e];
    }
    assert fs[..|fs|] == fs;
  }

  /** What follows the password check: RecordFailure or Reset, and what there is to log. */
  method Settle(bf: B.Bruteforce, ip: string, name: string, outcome: L.Outcome, now: nat) returns (events: seq<F.Event>)
    requires bf.Valid()
    modifies bf.byIP, bf.byUser, bf.byIP.repr, bf.byUser.repr
    ensures bf.Valid()
    ensures (bf.Abs(), events) == F.Settled(old(bf.Abs()), ip, name, outcome, now)
    ensures Succeeded(events) <==> outcome.LoggedIn?
    ensures forall f :: f in events ==> !f.action.Other?
  {
    if outcome.LoggedIn? {
      bf.Reset(ip, name);
      return [F.Event(F.LoginSuccess, name, ip, now, false)];
    }
    bf.RecordFailure(ip, name, now);
    events := [F.Event(F.LoginFailed, name, ip, now, false)];
    if outcome == L.Unapproved {
      events := events + [F.Event(F.LoginUnapproved, name, ip, now, false)];
      assert events == [F.Event(F.LoginFailed, name, ip, now, false), F.Event(F.LoginUnapproved, name, ip, now, false)];
    }
  }

  /** A login that passed Check: the accounts, then RecordFailure or Reset. */
  method Proceed(bf: B.Bruteforce, svc: S.Service, ip: string, name: string, password: string,
                 world: L.World, tok: string, now: nat) returns (events: seq<F.Event>)
    requires bf.Valid() && svc.Valid()
    modifies bf.byIP, bf.byUser, bf.byIP.repr, bf.byUser.repr
    modifies svc`users, svc`accounts, svc`owner, svc`sessions
    ensures bf.Valid() && svc.Valid()
    ensures var (a, outcome) := L.Login(svc.hasher, old(svc.Abs()), name, password, world, tok, now + svc.ttl);
            svc.Abs() == a && (bf.Abs(), events) == F.Settled(old(bf.Abs()), ip, name, outcome, now)
    ensures svc.sessions == Sessions(old(svc.sessions), events, tok, name, svc.accounts, now + svc.ttl)
    ensures Succeeded(events) ==> name in svc.accounts
    ensures forall f :: f in events ==> !f.action.Other?
  {
    var outcome := svc.Login(name, password, world, tok, now);
    events := Settle(bf, ip, name, outcome, now);
  }

  /** Check first; what passes proceeds. */
  method Decide(bf: B.Bruteforce, svc: S.Service, ip: string, name: string, password: string,
                world: L.World, tok: string, now: nat) returns (events: seq<F.Event>)
    requires bf.Valid() && svc.Valid()
    modifies bf.byIP, bf.byUser, bf.byIP.repr, bf.byUser.repr
    modifies svc`users, svc`accounts, svc`owner, svc`sessions
    ensures bf.Valid() && svc.Valid()
    ensures (bf.Abs(), svc.Abs(), events) ==
            F.Handle(svc.hasher, old(bf.Abs()), old(svc.Abs()), ip, name, password, world, tok, now, now + svc.ttl)
    ensures svc.sessions == Sessions(old(svc.sessions), events, tok, name, svc.accounts, now + svc.ttl)
    ensures Succeeded(events) ==> name in svc.accounts
    ensures forall f :: f in events ==> !f.action.Other?
  {
    if name == "" || password == "" {
      return [];
    }
    var verdict := bf.Check(ip, name, now);
    if verdict != T.Allowed {
      return [F.Event(F.LoginLocked, name, ip, now, false)];
    }
    events := Proceed(bf, svc, ip, name, password, world, tok, now);
  }

  /** The whole handler: the events of the decision go to the shared log, with its counters. The
      detail text, a reason or a source, is not specified. */
  method Login(bf: B.Bruteforce, svc: S.Service, log: AuditLog.Log, ip: string, name: string, password: string,
               world: L.World, tok: string, detail: string, now: nat)
    returns (events: seq<F.Event>, ghost es: seq<Q.Event>)
    requires bf.Valid() && svc.Valid() && log.Valid() && log.Open()
    modifies bf.byIP, bf.byUser, bf.byIP.repr, bf.byUser.repr
    modifies svc`users, svc`accounts, svc`owner, svc`sessions
    modifies log`events, log`logins, log`loginFails, log`history, log.store
    ensures bf.Valid() && svc.Valid() && log.Valid() && log.Open()
    ensures (bf.Abs(), svc.Abs(), events) ==
            F.Handle(svc.hasher, old(bf.Abs()), old(svc.Abs()), ip, name, password, world, tok, now, now + svc.ttl)
    ensures log.history == old(log.history) + es && AllTell(es, events)
    ensures log.logins == old(log.logins) + Count(events, F.LoginSuccess)
    ensures log.loginFails == old(log.loginFails) + Count(events, F.LoginFailed)
    ensures svc.sessions == Sessions(old(svc.sessions), events, tok, name, svc.accounts, now + svc.ttl)
    ensures Succeeded(events) ==> name in svc.accounts
  {
    events := Decide(bf, svc, ip, name, password, world, tok, now);
    es := Record(log, events, detail);
  }

  /** A client's own event: the action is the client's choice, the address is the connection's. */
  method Post(log: AuditLog.Log, action: string, detail: string, addr: string, agent: string, now: nat)
    returns (ghost es: seq<Q.Event>)
    requires log.Valid() && log.Open()
    modifies log`events, log`logins, log`loginFails, log`history, log.store
    ensures log.Valid() && log.Open()
    ensures log.history == old(log.history) + es && AllTell(es, F.Noted(F.Post(Action(action), addr, now)))
  {
    var e := Q.Event(0, action, "", addr, detail, "", "", "", 0, "", 0, 0, "", agent);
    log.AddEvent(e, now);
    es := [e.(time := now)];
  }

  /** The administrator's reset request. */
  method Unlock(bf: B.Bruteforce, all: bool, ip: string, name: string)
    requires bf.Valid()
    modifies bf, bf.byIP, bf.byUser
    ensures bf.Valid()
    ensures bf.Abs() == F.Unlocked(old(bf.Abs()), all, ip, name)
  {
    if all {
      bf.ResetAll();
    } else if ip != "" {
      bf.ResetByIP(ip);
    } else if name != "" {
      bf.ResetByUsername(name);
    }
  }
}
