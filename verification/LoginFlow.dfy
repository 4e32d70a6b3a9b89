/** The login endpoint as a whole: the throttle decides first, the accounts second, and the audit
    log records the outcome. Each login is one step with one clock reading. Other requests
    interleave: the administrator reads the throttle or resets it, which logs nothing; any
    signed-in client posts events of its own, which the log does not tell from the server's; and
    the other handlers log what they do. */
module LoginFlow {
  import opened Common
  import opened Backoff
  import T = Throttle
  import H = ThrottleHistory
  import A = Accounts
  import L = Logins

  datatype Action = LoginLocked | LoginFailed | LoginUnapproved | LoginSuccess | Other(text: string)

  /** What an audit event says about logins; `posted` is where it came from, which it does not say. */
  datatype Event = Event(action: Action, user: string, ip: string, time: nat, posted: bool)

  datatype State = State(throttle: T.State, accounts: A.State, log: seq<Event>)

  datatype Op =
    | Login(ip: string, name: string, password: string, world: L.World, tok: string, now: nat)
    | Admin(op: A.Op, now: nat)
    | Look(now: nat)                                          // the throttle state is read
    | Unlock(all: bool, ip: string, name: string, now: nat)   // the throttle is reset
    | Post(action: Action, addr: string, now: nat)            // a client's event, with any action
    | Note(text: string, user: string, ip: string, now: nat)  // what other handlers log

  predicate Malformed(op: Op) {
    op.Login? && (op.name == "" || op.password == "")
  }

  /** What an outcome does to the throttle and which events it leaves. */
  function Settled(t: T.State, ip: string, name: string, outcome: L.Outcome, now: nat): (T.State, seq<Event>) {
    if outcome.LoggedIn? then (T.Reset(t, ip, name), [Event(LoginSuccess, name, ip, now, false)])
    else if outcome != L.Unapproved then (T.RecordFailure(t, ip, name, now), [Event(LoginFailed, name, ip, now, false)])
    else (T.RecordFailure(t, ip, name, now), [Event(LoginFailed, name, ip, now, false), Event(LoginUnapproved, name, ip, now, false)])
  }

  /** What the handler makes of the throttle, the accounts and the audit log. */
  function Handle(h: A.Hasher, t: T.State, a: A.State, ip: string, name: string, password: string,
                  world: L.World, tok: string, now: nat, expires: int): (T.State, A.State, seq<Event>) {
    if name == "" || password == "" then (t, a, []) else
    var (t1, verdict) := T.Check(t, ip, name, now);
    if verdict != T.Allowed then (t1, a, [Event(LoginLocked, name, ip, now, false)]) else
    var (a1, outcome) := L.Login(h, a, name, password, world, tok, expires);
    var (t2, events) := Settled(t1, ip, name, outcome, now);
    (t2, a1, events)
  }

  lemma HandleLogsLogins(h: A.Hasher, t: T.State, a: A.State, ip: string, name: string, password: string,
                         world: L.World, tok: string, now: nat, expires: int)
    ensures forall e :: e in Handle(h, t, a, ip, name, password, world, tok, now, expires).2 ==>
      !e.action.Other? && !e.posted && e.time == now
  {
    if name != "" && password != "" {
      var (t1, verdict) := T.Check(t, ip, name, now);
      var (a1, outcome) := L.Login(h, a, name, password, world, tok, expires);
      SettledIsLogin(t1, ip, name, outcome, now);
    }
  }

  /** Once Check lets the right local password in, the login succeeds, and its token is accepted
      at every time up to the session's expiry. */
  lemma PasswordAdmits(h: A.Hasher, t: T.State, a: A.State, ip: string, name: string, password: string,
                       world: L.World, tok: string, now: nat, expires: int)
    requires name != "" && password != "" && T.Check(t, ip, name, now).1 == T.Allowed && A.Verify(h, a, name, password).1
    ensures var (_, a', events) := Handle(h, t, a, ip, name, password, world, tok, now, expires);
            && events == [Event(LoginSuccess, name, ip, now, false)]
            && forall then_: int :: then_ <= expires ==> A.Authenticate(a', tok, then_).1 == Some(name)
  {
    L.LoginOpensSession(h, a, name, password, world, tok, expires);
  }

  /** A login logs a success exactly when it opens its session; one that Check turns away changes
      no account and no session. */
  lemma SuccessOpensSession(h: A.Hasher, t: T.State, a: A.State, ip: string, name: string, password: string,
                            world: L.World, tok: string, now: nat, expires: int)
    requires name != "" && password != ""
    ensures var (_, a', events) := Handle(h, t, a, ip, name, password, world, tok, now, expires);
            && (T.Check(t, ip, name, now).1 != T.Allowed ==> a' == a && events == [Event(LoginLocked, name, ip, now, false)])
            && (Event(LoginSuccess, name, ip, now, false) in events ==>
                  tok in a'.sessions && a'.sessions[tok].username == name && a'.sessions[tok].expires == expires)
            && (Event(LoginSuccess, name, ip, now, false) !in events ==> a'.sessions == a.sessions)
  {
    L.LoginOpensSession(h, a, name, password, world, tok, expires);
    var (t1, verdict) := T.Check(t, ip, name, now);
    if verdict == T.Allowed {
      OutcomeIsLogged(t1, ip, name, L.Login(h, a, name, password, world, tok, expires).1, now);
    }
  }

  /** An unapproved login leaves two events, any other that fails one, and one that succeeds one. */
  lemma OutcomeIsLogged(t: T.State, ip: string, name: string, outcome: L.Outcome, now: nat)
    ensures var events := Settled(t, ip, name, outcome, now).1;
            && (outcome.LoggedIn? <==> events == [Event(LoginSuccess, name, ip, now, false)])
            && (outcome == L.Unapproved <==>
                  events == [Event(LoginFailed, name, ip, now, false), Event(LoginUnapproved, name, ip, now, false)])
            && (!outcome.LoggedIn? && outcome != L.Unapproved <==> events == [Event(LoginFailed, name, ip, now, false)])
  {
    assert Event(LoginFailed, name, ip, now, false) != Event(LoginSuccess, name, ip, now, false);
    assert |Settled(t, ip, name, L.Unapproved, now).1| == 2;
    assert |Settled(t, ip, name, outcome, now).1| == if outcome == L.Unapproved then 2 else 1;
    var first := Settled(t, ip, name, outcome, now).1[0];
    assert first.action == if outcome.LoggedIn? then LoginSuccess else LoginFailed;
  }

  lemma SettledIsLogin(t: T.State, ip: string, name: string, outcome: L.Outcome, now: nat)
    ensures forall e :: e in Settled(t, ip, name, outcome, now).1 ==> !e.action.Other? && !e.posted && e.time == now
  {
  }

  /** A reset request names everything, an address or, failing that, a username. */
  function Unlocked(t: T.State, all: bool, ip: string, name: string): T.State {
    if all then T.ResetAll(t)
    else if ip != "" then T.ResetByIP(t, ip)
    else if name != "" then T.ResetByUsername(t, name)
    else t
  }

  /** The event of a step that is not a login, if it logs one. */
  function Noted(op: Op): seq<Event>
    requires !op.Login?
  {
    match op
    case Post(action, addr, now) => [Event(action, "", addr, now, true)]
    case Note(text, user, ip, now) => [Event(Other(text), user, ip, now, false)]
    case _ => []
  }

  function Step(h: A.Hasher, ttl: int, y: State, op: Op): State {
    match op
    case Admin(a, _) => y.(accounts := A.Step(h, y.accounts, a))
    case Look(now) => y.(throttle := T.Refresh(y.throttle, now))
    case Unlock(all, ip, name, _) => y.(throttle := Unlocked(y.throttle, all, ip, name))
    case Post(_, _, _) => y.(log := y.log + Noted(op))
    case Note(_, _, _, _) => y.(log := y.log + Noted(op))
    case Login(ip, name, password, world, tok, now) =>
      var (t, a, events) := Handle(h, y.throttle, y.accounts, ip, name, password, world, tok, now, now + ttl);
      State(t, a, y.log + events)
  }

  function Run(h: A.Hasher, ttl: int, c: LiveConfig, a0: A.State, w: seq<Op>): State {
    if w == [] then State(T.Initial(c), a0, [])
    else Step(h, ttl, Run(h, ttl, c, a0, Front(w)), Last(w))
  }

  /** Whether the credentials would be accepted, had the throttle let them through. */
  predicate Good(h: A.Hasher, s: A.State, op: Op)
    requires op.Login?
  {
    L.Login(h, s, op.name, op.password, op.world, op.tok, 0).1.LoggedIn?
  }

  /** The throttle operation that a step other than a login amounts to, if any. */
  function Quiet(op: Op): seq<H.Op>
    requires !op.Login?
  {
    match op
    case Admin(_, _) => []
    case Look(now) => [H.Peek(now)]
    case Unlock(all, ip, name, now) =>
      if all then [H.ResetEverything(now)]
      else if ip != "" then [H.ResetOne(T.IP(ip), now)]
      else if name != "" then [H.ResetOne(T.User(name), now)]
      else []
    case _ => []
  }

  /** The throttle's view of a run. */
  function History(h: A.Hasher, ttl: int, c: LiveConfig, a0: A.State, w: seq<Op>): seq<H.Op> {
    if w == [] then [] else
    var before, op := History(h, ttl, c, a0, Front(w)), Last(w);
    if !op.Login? then before + Quiet(op)
    else if Malformed(op) then before
    else before + [H.Login(op.ip, op.name, Good(h, Run(h, ttl, c, a0, Front(w)).accounts, op), op.now)]
  }

  function Clock(w: seq<Op>): nat {
    if w == [] then 0 else Last(w).now
  }

  predicate Timed(w: seq<Op>) {
    w != [] ==> Timed(Front(w)) && Clock(Front(w)) <= Last(w).now
  }

  lemma {:induction false} HistoryTimed(h: A.Hasher, ttl: int, c: LiveConfig, a0: A.State, w: seq<Op>)
    requires Timed(w)
    ensures H.Timed(History(h, ttl, c, a0, w)) && H.Clock(History(h, ttl, c, a0, w)) <= Clock(w)
  {
    if w == [] {
    } else {
      HistoryTimed(h, ttl, c, a0, Front(w));
      var before, hist := History(h, ttl, c, a0, Front(w)), History(h, ttl, c, a0, w);
      if hist != before {
        assert Front(hist) == before;
      }
    }
  }

  lemma ExpiryDoesNotDecide(h: A.Hasher, s: A.State, name: string, password: string, e: L.World, tok: string, x: int, y: int)
    ensures L.Login(h, s, name, password, e, tok, x).1 == L.Login(h, s, name, password, e, tok, y).1
  {
  }

  lemma StepAttempts(h: A.Hasher, ttl: int, y: State, op: Op)
    requires op.Login? && !Malformed(op)
    ensures Step(h, ttl, y, op).throttle == T.Attempt(y.throttle, op.ip, op.name, Good(h, y.accounts, op), op.now).0
  {
    ExpiryDoesNotDecide(h, y.accounts, op.name, op.password, op.world, op.tok, 0, op.now + ttl);
  }

  lemma QuietStep(h: A.Hasher, ttl: int, y: State, op: Op)
    requires !op.Login?
    ensures Step(h, ttl, y, op).throttle == if Quiet(op) == [] then y.throttle else H.Step(y.throttle, Quiet(op)[0])
    ensures |Quiet(op)| <= 1
  {
  }

  lemma QuietRuns(h: A.Hasher, ttl: int, c: LiveConfig, y: State, hist: seq<H.Op>, op: Op)
    requires !op.Login? && y.throttle == H.Run(c, hist)
    ensures Step(h, ttl, y, op).throttle == H.Run(c, hist + Quiet(op))
  {
    QuietStep(h, ttl, y, op);
    if Quiet(op) == [] {
      assert hist + Quiet(op) == hist;
    } else {
      assert Quiet(op) == [Quiet(op)[0]];
      H.RunAfter(c, hist, Quiet(op)[0]);
    }
  }

  /** The throttle inside the endpoint is the throttle of its history, so every guarantee about
      sequential throttle histories is one about logins. */
  lemma {:induction false} ThrottleRunsHistory(h: A.Hasher, ttl: int, c: LiveConfig, a0: A.State, w: seq<Op>)
    ensures Run(h, ttl, c, a0, w).throttle == H.Run(c, History(h, ttl, c, a0, w))
  {
    if w == [] {
    } else {
      ThrottleRunsHistory(h, ttl, c, a0, Front(w));
      var y, before, op := Run(h, ttl, c, a0, Front(w)), History(h, ttl, c, a0, Front(w)), Last(w);
      if !op.Login? {
        QuietRuns(h, ttl, c, y, before, op);
      } else if !Malformed(op) {
        StepAttempts(h, ttl, y, op);
        H.RunAfter(c, before, H.Login(op.ip, op.name, Good(h, y.accounts, op), op.now));
      }
    }
  }

  // ---- what the audit log tells ----

  predicate Concerns(e: Event, k: T.Key) {
    k == T.IP(e.ip) || k == T.User(e.user)
  }

  predicate Fails(e: Event, k: T.Key) {
    e.action == LoginFailed && Concerns(e, k)
  }

  predicate Clears(e: Event, k: T.Key) {
    e.action == LoginSuccess && Concerns(e, k)
  }

  /** The failed logins on a key that the log shows after its last successful one. */
  function FailedSince(log: seq<Event>, k: T.Key): seq<int> {
    if log == [] then [] else
    var before, e := FailedSince(Front(log), k), Last(log);
    if Fails(e, k) then before + [e.time] else if Clears(e, k) then [] else before
  }

  lemma OneEvent(log: seq<Event>, e: Event, k: T.Key)
    ensures FailedSince(log + [e], k) ==
            if Fails(e, k) then FailedSince(log, k) + [e.time]
            else if Clears(e, k) then []
            else FailedSince(log, k)
  {
    assert Front(log + [e]) == log;
  }

  /** The step resets the key without a trace in the log. */
  predicate Resets(op: Op, k: T.Key) {
    !op.Login? && Quiet(op) != [] && H.Resets(Quiet(op)[0], k)
  }

  /** How long the log was at the last reset of the key. */
  function Mark(h: A.Hasher, ttl: int, c: LiveConfig, a0: A.State, w: seq<Op>, k: T.Key): (m: nat)
    ensures m <= |Run(h, ttl, c, a0, w).log|
  {
    if w == [] then 0
    else if Resets(Last(w), k) then |Run(h, ttl, c, a0, Front(w)).log|
    else Mark(h, ttl, c, a0, Front(w), k)
  }

  /** The part of a log that counts: what the server itself wrote, from m on. */
  function Counted(log: seq<Event>, m: nat): seq<Event> {
    if |log| <= m then []
    else if Last(log).posted then Counted(Front(log), m)
    else Counted(Front(log), m) + [Last(log)]
  }

  lemma CountedSnoc(log: seq<Event>, e: Event, m: nat)
    requires m <= |log|
    ensures Counted(log + [e], m) == if e.posted then Counted(log, m) else Counted(log, m) + [e]
  {
    assert Front(log + [e]) == log;
  }

  lemma {:induction false} CountedConcat(log: seq<Event>, events: seq<Event>, m: nat)
    requires m <= |log| && forall e :: e in events ==> !e.posted
    ensures Counted(log + events, m) == Counted(log, m) + events
  {
    if events == [] {
      assert log + events == log;
    } else {
      var front, e := Front(events), Last(events);
      assert events == front + [e];
      assert log + events == log + front + [e];
      CountedConcat(log, front, m);
      CountedSnoc(log + front, e, m);
      Associates(Counted(log, m), front, [e]);
    }
  }

  /** What the log of a run says of a key, disregarding posted events and what is older than the
      key's last reset. */
  function Genuine(h: A.Hasher, ttl: int, c: LiveConfig, a0: A.State, w: seq<Op>, k: T.Key): seq<Event> {
    Counted(Run(h, ttl, c, a0, w).log, Mark(h, ttl, c, a0, w, k))
  }

  /** What an outcome logs, after any part of the log. */
  lemma SettledLogs(t: T.State, ip: string, name: string, outcome: L.Outcome, now: nat, part: seq<Event>, k: T.Key)
    ensures FailedSince(part + Settled(t, ip, name, outcome, now).1, k) ==
            H.After(FailedSince(part, k), k == T.IP(ip) || k == T.User(name), false, outcome.LoggedIn?, now)
  {
    var failed, pending := Event(LoginFailed, name, ip, now, false), Event(LoginUnapproved, name, ip, now, false);
    OneEvent(part, Event(LoginSuccess, name, ip, now, false), k);
    OneEvent(part, failed, k);
    OneEvent(part + [failed], pending, k);
    assert part + [failed, pending] == part + [failed] + [pending];
  }

  /** The events of a login. */
  function Logged(h: A.Hasher, ttl: int, y: State, op: Op): seq<Event>
    requires op.Login?
  {
    Handle(h, y.throttle, y.accounts, op.ip, op.name, op.password, op.world, op.tok, op.now, op.now + ttl).2
  }

  lemma LoggedWhen(h: A.Hasher, ttl: int, y: State, op: Op)
    requires op.Login? && !Malformed(op)
    ensures var (t, verdict) := T.Check(y.throttle, op.ip, op.name, op.now);
            var outcome := L.Login(h, y.accounts, op.name, op.password, op.world, op.tok, op.now + ttl).1;
            Logged(h, ttl, y, op) == if verdict != T.Allowed then [Event(LoginLocked, op.name, op.ip, op.now, false)]
                                     else Settled(t, op.ip, op.name, outcome, op.now).1
  {
  }

  lemma LoggedIsGenuine(h: A.Hasher, ttl: int, y: State, op: Op)
    requires op.Login?
    ensures forall e :: e in Logged(h, ttl, y, op) ==> !e.posted && e.time == op.now
  {
    HandleLogsLogins(h, y.throttle, y.accounts, op.ip, op.name, op.password, op.world, op.tok, op.now, op.now + ttl);
  }

  /** After any part of the log, they show a failure exactly when the throttle counts one. */
  lemma StepLogs(h: A.Hasher, ttl: int, y: State, op: Op, part: seq<Event>, k: T.Key)
    requires op.Login? && !Malformed(op)
    ensures FailedSince(part + Logged(h, ttl, y, op), k) ==
            H.After(FailedSince(part, k), k == T.IP(op.ip) || k == T.User(op.name),
                    T.Check(y.throttle, op.ip, op.name, op.now).1 != T.Allowed, Good(h, y.accounts, op), op.now)
  {
    LoggedWhen(h, ttl, y, op);
    var (t, verdict) := T.Check(y.throttle, op.ip, op.name, op.now);
    if verdict != T.Allowed {
      OneEvent(part, Event(LoginLocked, op.name, op.ip, op.now, false), k);
    } else {
      var outcome := L.Login(h, y.accounts, op.name, op.password, op.world, op.tok, op.now + ttl).1;
      ExpiryDoesNotDecide(h, y.accounts, op.name, op.password, op.world, op.tok, 0, op.now + ttl);
      SettledLogs(t, op.ip, op.name, outcome, op.now, part, k);
    }
  }

  lemma RunGrows(h: A.Hasher, ttl: int, c: LiveConfig, a0: A.State, f: seq<Op>, op: Op)
    ensures Run(h, ttl, c, a0, f + [op]) == Step(h, ttl, Run(h, ttl, c, a0, f), op)
  {
    assert Front(f + [op]) == f;
  }

  lemma LogGrows(h: A.Hasher, ttl: int, y: State, op: Op)
    ensures Step(h, ttl, y, op).log == y.log + if op.Login? then Logged(h, ttl, y, op) else Noted(op)
  {
    assert y.log + [] == y.log;
  }

  lemma MarkStays(h: A.Hasher, ttl: int, c: LiveConfig, a0: A.State, f: seq<Op>, op: Op, k: T.Key)
    requires !Resets(op, k)
    ensures Mark(h, ttl, c, a0, f + [op], k) == Mark(h, ttl, c, a0, f, k)
  {
    assert Front(f + [op]) == f;
  }

  lemma GenuineGrows(h: A.Hasher, ttl: int, c: LiveConfig, a0: A.State, f: seq<Op>, op: Op, k: T.Key)
    requires op.Login?
    ensures Genuine(h, ttl, c, a0, f + [op], k) == Genuine(h, ttl, c, a0, f, k) + Logged(h, ttl, Run(h, ttl, c, a0, f), op)
  {
    var y := Run(h, ttl, c, a0, f);
    RunGrows(h, ttl, c, a0, f, op);
    LogGrows(h, ttl, y, op);
    MarkStays(h, ttl, c, a0, f, op, k);
    LoggedIsGenuine(h, ttl, y, op);
    CountedConcat(y.log, Logged(h, ttl, y, op), Mark(h, ttl, c, a0, f, k));
  }

  lemma HistoryGrows(h: A.Hasher, ttl: int, c: LiveConfig, a0: A.State, f: seq<Op>, op: Op)
    requires op.Login? && !Malformed(op)
    ensures History(h, ttl, c, a0, f + [op]) ==
            History(h, ttl, c, a0, f) + [H.Login(op.ip, op.name, Good(h, Run(h, ttl, c, a0, f).accounts, op), op.now)]
  {
    assert Front(f + [op]) == f;
  }

  lemma LoginTold(h: A.Hasher, ttl: int, c: LiveConfig, a0: A.State, f: seq<Op>, op: Op, k: T.Key)
    requires Fits(c) && Timed(f) && Clock(f) <= op.now && op.Login? && !Malformed(op)
    requires FailedSince(Genuine(h, ttl, c, a0, f, k), k) == H.Failures(c, History(h, ttl, c, a0, f), k)
    ensures FailedSince(Genuine(h, ttl, c, a0, f + [op], k), k) == H.Failures(c, History(h, ttl, c, a0, f + [op]), k)
  {
    var y, hist := Run(h, ttl, c, a0, f), History(h, ttl, c, a0, f);
    HistoryTimed(h, ttl, c, a0, f);
    ThrottleRunsHistory(h, ttl, c, a0, f);
    H.VerdictRefinesHistory(c, hist, op.ip, op.name, op.now);
    StepLogs(h, ttl, y, op, Genuine(h, ttl, c, a0, f, k), k);
    GenuineGrows(h, ttl, c, a0, f, op, k);
    HistoryGrows(h, ttl, c, a0, f, op);
    H.FailuresAfterLogin(c, hist, H.Login(op.ip, op.name, Good(h, y.accounts, op), op.now), k);
  }

  lemma NotedTells(log: seq<Event>, e: Event, m: nat, k: T.Key)
    requires m <= |log| && (e.posted || e.action.Other?)
    ensures FailedSince(Counted(log + [e], m), k) == FailedSince(Counted(log, m), k)
  {
    CountedSnoc(log, e, m);
    if !e.posted {
      OneEvent(Counted(log, m), e, k);
    }
  }

  lemma NothingCounts(log: seq<Event>)
    ensures Counted(log, |log|) == []
  {
  }

  /** Any other step adds nothing about logins to what counts, or resets the key. */
  lemma GenuineStays(h: A.Hasher, ttl: int, c: LiveConfig, a0: A.State, f: seq<Op>, op: Op, k: T.Key)
    requires !op.Login? || Malformed(op)
    ensures FailedSince(Genuine(h, ttl, c, a0, f + [op], k), k) ==
            if Resets(op, k) then [] else FailedSince(Genuine(h, ttl, c, a0, f, k), k)
  {
    var y, m := Run(h, ttl, c, a0, f), Mark(h, ttl, c, a0, f, k);
    assert Front(f + [op]) == f;
    RunGrows(h, ttl, c, a0, f, op);
    LogGrows(h, ttl, y, op);
    assert y.log + [] == y.log;
    if Resets(op, k) {
      NothingCounts(y.log);
    } else if op.Post? || op.Note? {
      MarkStays(h, ttl, c, a0, f, op, k);
      NotedTells(y.log, Noted(op)[0], m, k);
      assert Noted(op) == [Noted(op)[0]];
    } else {
      MarkStays(h, ttl, c, a0, f, op, k);
    }
  }

  lemma HistoryStays(h: A.Hasher, ttl: int, c: LiveConfig, a0: A.State, f: seq<Op>, op: Op)
    requires !op.Login? || Malformed(op)
    ensures History(h, ttl, c, a0, f + [op]) == History(h, ttl, c, a0, f) + if op.Login? then [] else Quiet(op)
  {
    assert Front(f + [op]) == f;
  }

  lemma QuietFailures(c: LiveConfig, hist: seq<H.Op>, op: Op, k: T.Key)
    requires !op.Login?
    ensures H.Failures(c, hist + Quiet(op), k) == if Resets(op, k) then [] else H.Failures(c, hist, k)
  {
    if Quiet(op) == [] {
      assert hist + Quiet(op) == hist;
    } else {
      assert Quiet(op) == [Quiet(op)[0]];
      H.FailuresAfterQuiet(c, hist, Quiet(op)[0], k);
    }
  }

  lemma QuietTold(h: A.Hasher, ttl: int, c: LiveConfig, a0: A.State, f: seq<Op>, op: Op, k: T.Key)
    requires !op.Login? || Malformed(op)
    requires FailedSince(Genuine(h, ttl, c, a0, f, k), k) == H.Failures(c, History(h, ttl, c, a0, f), k)
    ensures FailedSince(Genuine(h, ttl, c, a0, f + [op], k), k) == H.Failures(c, History(h, ttl, c, a0, f + [op]), k)
  {
    var hist := History(h, ttl, c, a0, f);
    GenuineStays(h, ttl, c, a0, f, op, k);
    HistoryStays(h, ttl, c, a0, f, op);
    if op.Login? {
      assert hist + [] == hist;
    } else {
      QuietFailures(c, hist, op, k);
    }
  }

  /** What the server itself logged since the last reset of a key yields exactly the failures that
      the throttle counts against that key, in every run. */
  lemma {:induction false} GenuineLogTellsFailures(h: A.Hasher, ttl: int, c: LiveConfig, a0: A.State, w: seq<Op>, k: T.Key)
    requires Fits(c) && Timed(w)
    ensures FailedSince(Genuine(h, ttl, c, a0, w, k), k) == H.Failures(c, History(h, ttl, c, a0, w), k)
  {
    if w == [] {
    } else {
      var f, op := Front(w), Last(w);
      assert w == f + [op];
      GenuineLogTellsFailures(h, ttl, c, a0, f, k);
      if op.Login? && !Malformed(op) {
        LoginTold(h, ttl, c, a0, f, op, k);
      } else {
        QuietTold(h, ttl, c, a0, f, op, k);
      }
    }
  }
}
