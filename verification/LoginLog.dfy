/** What the audit log tells about the throttle, read as it is: posted events pass for the server's
    own, and resets leave no event. */
module LoginLog {
  import opened Common
  import opened Backoff
  import opened Ordered
  import opened LoginFlow

  predicate NonePosted(log: seq<Event>, k: T.Key) {
    forall e :: e in log ==> e.posted ==> !Concerns(e, k)
  }

  lemma {:induction false} NonePostedTells(log: seq<Event>, m: nat, k: T.Key)
    requires m <= |log| && NonePosted(log[m..], k)
    ensures FailedSince(log[m..], k) == FailedSince(Counted(log, m), k)
  {
    if |log| == m {
    } else {
      var front, e := Front(log), Last(log);
      assert log == front + [e];
      assert log[m..] == front[m..] + [e];
      NonePostedTells(front, m, k);
      CountedSnoc(front, e, m);
      OneEvent(front[m..], e, k);
      OneEvent(Counted(front, m), e, k);
      assert Counted(front, m) + [] == Counted(front, m);
    }
  }

  /** Read as it is from the last reset of the key on, the log yields them for every key that no
      client has posted about since. */
  lemma RecentLogTellsFailures(h: A.Hasher, ttl: int, c: LiveConfig, a0: A.State, w: seq<Op>, k: T.Key)
    requires Fits(c) && Timed(w)
    requires NonePosted(Run(h, ttl, c, a0, w).log[Mark(h, ttl, c, a0, w, k)..], k)
    ensures FailedSince(Run(h, ttl, c, a0, w).log[Mark(h, ttl, c, a0, w, k)..], k) ==
            H.Failures(c, History(h, ttl, c, a0, w), k)
  {
    GenuineLogTellsFailures(h, ttl, c, a0, w, k);
    NonePostedTells(Run(h, ttl, c, a0, w).log, Mark(h, ttl, c, a0, w, k), k);
  }

  lemma {:induction false} PostsAreAnonymous(h: A.Hasher, ttl: int, c: LiveConfig, a0: A.State, w: seq<Op>)
    ensures forall e :: e in Run(h, ttl, c, a0, w).log && e.posted ==> e.user == ""
  {
    if w == [] {
    } else {
      var y := Run(h, ttl, c, a0, Front(w));
      PostsAreAnonymous(h, ttl, c, a0, Front(w));
      LogGrows(h, ttl, y, Last(w));
      if Last(w).Login? {
        LoggedIsGenuine(h, ttl, y, Last(w));
      }
    }
  }

  /** So it does for every username: no client can post about one. */
  lemma LogTellsUsernames(h: A.Hasher, ttl: int, c: LiveConfig, a0: A.State, w: seq<Op>, name: string)
    requires Fits(c) && Timed(w) && name != ""
    ensures var k := T.User(name);
            FailedSince(Run(h, ttl, c, a0, w).log[Mark(h, ttl, c, a0, w, k)..], k) ==
            H.Failures(c, History(h, ttl, c, a0, w), k)
  {
    var k := T.User(name);
    var log, m := Run(h, ttl, c, a0, w).log, Mark(h, ttl, c, a0, w, k);
    PostsAreAnonymous(h, ttl, c, a0, w);
    assert forall e :: e in log[m..] ==> e in log;
    RecentLogTellsFailures(h, ttl, c, a0, w, k);
  }

  /** The counted failures that the last success in the log has not cleared. */
  function Standing(log: seq<Event>, m: nat, k: T.Key): seq<int> {
    if log == [] then [] else
    var before, e := Standing(Front(log), m, k), Last(log);
    if Clears(e, k) then []
    else if Fails(e, k) && |log| > m && !e.posted then before + [e.time]
    else before
  }

  /** Failures in the log that do not count, posted or older than m, and that no later success clears. */
  function Forged(log: seq<Event>, m: nat, k: T.Key): seq<int> {
    if log == [] then [] else
    var before, e := Forged(Front(log), m, k), Last(log);
    if Clears(e, k) then []
    else if Fails(e, k) && (|log| <= m || e.posted) then before + [e.time]
    else before
  }

  /** Failures that count and that only successes which do not count have cleared. */
  function Hidden(log: seq<Event>, m: nat, k: T.Key): seq<int> {
    if log == [] then [] else
    var before, e := Hidden(Front(log), m, k), Last(log);
    if !Clears(e, k) then before
    else if |log| > m && !e.posted then []
    else before + Standing(Front(log), m, k)
  }

  /** The events of a log are in the order of their times. */
  predicate InOrder(log: seq<Event>) {
    forall i, j :: 0 <= i < j < |log| ==> log[i].time <= log[j].time
  }

  lemma OneCounted(log: seq<Event>, m: nat, k: T.Key)
    requires log != []
    ensures var before, e := FailedSince(Counted(Front(log), m), k), Last(log);
            FailedSince(Counted(log, m), k) ==
            if |log| <= m then []
            else if e.posted then before
            else if Fails(e, k) then before + [e.time]
            else if Clears(e, k) then []
            else before
  {
    if |log| > m && !Last(log).posted {
      OneEvent(Counted(Front(log), m), Last(log), k);
    }
  }

  lemma {:induction false} ShownSplit(log: seq<Event>, m: nat, k: T.Key)
    ensures multiset(FailedSince(log, k)) == multiset(Standing(log, m, k)) + multiset(Forged(log, m, k))
  {
    if log == [] {
    } else {
      ShownSplit(Front(log), m, k);
    }
  }

  lemma {:induction false} CountedSplit(log: seq<Event>, m: nat, k: T.Key)
    ensures multiset(FailedSince(Counted(log, m), k)) == multiset(Hidden(log, m, k)) + multiset(Standing(log, m, k))
  {
    if |log| <= m {
      OldCountsForNothing(log, m, k);
    } else {
      CountedSplit(Front(log), m, k);
      OneCounted(log, m, k);
    }
  }

  lemma {:induction false} OldCountsForNothing(log: seq<Event>, m: nat, k: T.Key)
    requires |log| <= m
    ensures Standing(log, m, k) == [] && Hidden(log, m, k) == []
  {
    if log == [] {
    } else {
      OldCountsForNothing(Front(log), m, k);
    }
  }

  lemma {:induction false} ShownSorted(log: seq<Event>, k: T.Key, t: int)
    requires InOrder(log) && forall e :: e in log ==> e.time <= t
    ensures Sorted(FailedSince(log, k)) && UpTo(FailedSince(log, k), t)
  {
    if log == [] {
    } else {
      var front, e := Front(log), Last(log);
      ShownSorted(front, k, e.time);
      SortedSnoc(FailedSince(front, k), e.time);
    }
  }

  lemma {:induction false} CountedInOrder(log: seq<Event>, m: nat, t: int)
    requires InOrder(log) && forall e :: e in log ==> e.time <= t
    ensures InOrder(Counted(log, m)) && forall e :: e in Counted(log, m) ==> e.time <= t
  {
    if |log| <= m {
    } else {
      CountedInOrder(Front(log), m, Last(log).time);
    }
  }

  /** The hidden failures are no later than the ones that stand and the forged ones: a success
      lies in between. */
  lemma {:induction false} PartsSorted(log: seq<Event>, m: nat, k: T.Key, t: int)
    requires InOrder(log) && forall e :: e in log ==> e.time <= t
    ensures Sorted(Standing(log, m, k)) && UpTo(Standing(log, m, k), t)
    ensures Sorted(Forged(log, m, k)) && UpTo(Forged(log, m, k), t)
    ensures Sorted(Hidden(log, m, k)) && UpTo(Hidden(log, m, k), t)
    ensures Precedes(Hidden(log, m, k), Standing(log, m, k)) && Precedes(Hidden(log, m, k), Forged(log, m, k))
  {
    if log == [] {
    } else {
      var front, e := Front(log), Last(log);
      PartsSorted(front, m, k, e.time);
      var stands, forged, hidden := Standing(front, m, k), Forged(front, m, k), Hidden(front, m, k);
      assert e in log;
      if Clears(e, k) {
        SortedConcat(hidden, stands, e.time);
      } else {
        SortedSnoc(stands, e.time);
        SortedSnoc(forged, e.time);
        PrecedesSnoc(hidden, stands, e.time);
        PrecedesSnoc(hidden, forged, e.time);
      }
    }
  }

  /** A log in order shows exactly the failures that count when the forged ones are as the hidden
      ones; and then these all fell on one instant, if there are any. */
  lemma ShowsCountedExactly(log: seq<Event>, m: nat, k: T.Key, t: int)
    requires InOrder(log) && forall e :: e in log ==> e.time <= t
    ensures FailedSince(log, k) == FailedSince(Counted(log, m), k) <==> Forged(log, m, k) == Hidden(log, m, k)
    ensures Forged(log, m, k) == Hidden(log, m, k) ==> forall x, y :: x in Forged(log, m, k) && y in Forged(log, m, k) ==> x == y
  {
    var shown, counted := FailedSince(log, k), FailedSince(Counted(log, m), k);
    var stands, forged, hidden := Standing(log, m, k), Forged(log, m, k), Hidden(log, m, k);
    ShownSplit(log, m, k);
    CountedSplit(log, m, k);
    ShownSorted(log, k, t);
    CountedInOrder(log, m, t);
    ShownSorted(Counted(log, m), k, t);
    PartsSorted(log, m, k, t);
    if shown == counted {
      assert multiset(forged) == multiset(shown) - multiset(stands) == multiset(hidden);
      SortedUnique(forged, hidden);
    }
    if forged == hidden {
      SortedUnique(shown, counted);
    }
  }

  lemma InOrderConcat(a: seq<Event>, b: seq<Event>, t: int, now: int)
    requires InOrder(a) && t <= now && (forall e :: e in a ==> e.time <= t) && (forall e :: e in b ==> e.time == now)
    ensures InOrder(a + b) && forall e :: e in a + b ==> e.time <= now
  {
    forall i, j | 0 <= i < j < |a + b|
      ensures (a + b)[i].time <= (a + b)[j].time
    {
      assert (a + b)[i] in a || (a + b)[i] in b;
      if j >= |a| {
        assert (a + b)[j] in b;
      }
    }
  }

  lemma {:induction false} LogInOrder(h: A.Hasher, ttl: int, c: LiveConfig, a0: A.State, w: seq<Op>)
    requires Timed(w)
    ensures InOrder(Run(h, ttl, c, a0, w).log) && forall e :: e in Run(h, ttl, c, a0, w).log ==> e.time <= Clock(w)
  {
    if w == [] {
    } else {
      var y, op := Run(h, ttl, c, a0, Front(w)), Last(w);
      LogInOrder(h, ttl, c, a0, Front(w));
      LogGrows(h, ttl, y, op);
      if op.Login? {
        LoggedIsGenuine(h, ttl, y, op);
      }
      InOrderConcat(y.log, if op.Login? then Logged(h, ttl, y, op) else Noted(op), Clock(Front(w)), op.now);
    }
  }

  /** The whole log, read as it is, yields the failures that the throttle counts against a key
      exactly when the failures it shows and should not, posted or older than the last reset, are
      those it should and does not show, cleared by such successes only. Both can be other than
      empty only when they all fell on one instant. */
  lemma LogTellsFailuresExactly(h: A.Hasher, ttl: int, c: LiveConfig, a0: A.State, w: seq<Op>, k: T.Key)
    requires Fits(c) && Timed(w)
    ensures var log, m := Run(h, ttl, c, a0, w).log, Mark(h, ttl, c, a0, w, k);
            && (FailedSince(log, k) == H.Failures(c, History(h, ttl, c, a0, w), k) <==> Forged(log, m, k) == Hidden(log, m, k))
            && (Forged(log, m, k) == Hidden(log, m, k) ==>
                  forall x, y :: x in Forged(log, m, k) && y in Forged(log, m, k) ==> x == y)
  {
    GenuineLogTellsFailures(h, ttl, c, a0, w, k);
    LogInOrder(h, ttl, c, a0, w);
    ShowsCountedExactly(Run(h, ttl, c, a0, w).log, Mark(h, ttl, c, a0, w, k), k, Clock(w));
  }

  lemma {:induction false} NothingHidden(log: seq<Event>, m: nat, k: T.Key)
    requires NonePosted(log, k)
    ensures Hidden(log, m, k) == []
  {
    if |log| <= m {
      OldCountsForNothing(log, m, k);
    } else {
      assert Last(log) in log;
      NothingHidden(Front(log), m, k);
    }
  }

  /** For a username it does exactly when no reset of the username came after a failed login on it
      that no later success clears: resets leave no event. */
  lemma LogTellsUsernamesExactly(h: A.Hasher, ttl: int, c: LiveConfig, a0: A.State, w: seq<Op>, name: string)
    requires Fits(c) && Timed(w) && name != ""
    ensures var k := T.User(name);
            var log, m := Run(h, ttl, c, a0, w).log, Mark(h, ttl, c, a0, w, k);
            FailedSince(log, k) == H.Failures(c, History(h, ttl, c, a0, w), k) <==> Forged(log, m, k) == []
  {
    var k := T.User(name);
    var log, m := Run(h, ttl, c, a0, w).log, Mark(h, ttl, c, a0, w, k);
    PostsAreAnonymous(h, ttl, c, a0, w);
    LogTellsFailuresExactly(h, ttl, c, a0, w, k);
    NothingHidden(log, m, k);
  }

  /** The next login is turned away exactly when what the server itself logged since the last
      resets of the two keys says so; and then nothing about the accounts changes, whatever the
      password. */
  lemma LogDecidesNextLogin(h: A.Hasher, ttl: int, c: LiveConfig, a0: A.State, w: seq<Op>, op: Op)
    requires Fits(c) && Timed(w) && op.Login? && !Malformed(op) && Clock(w) <= op.now
    ensures var y, ip, user := Run(h, ttl, c, a0, w), T.IP(op.ip), T.User(op.name);
            var away := op.now < H.LockedUntil(c, FailedSince(Genuine(h, ttl, c, a0, w, ip), ip)) ||
                        op.now < H.LockedUntil(c, FailedSince(Genuine(h, ttl, c, a0, w, user), user));
            && (away <==> T.Check(y.throttle, op.ip, op.name, op.now).1 != T.Allowed)
            && (away ==> Step(h, ttl, y, op).accounts == y.accounts)
  {
    HistoryTimed(h, ttl, c, a0, w);
    ThrottleRunsHistory(h, ttl, c, a0, w);
    GenuineLogTellsFailures(h, ttl, c, a0, w, T.IP(op.ip));
    GenuineLogTellsFailures(h, ttl, c, a0, w, T.User(op.name));
    H.VerdictRefinesHistory(c, History(h, ttl, c, a0, w), op.ip, op.name, op.now);
  }

  // ---- where the log misleads ----

  lemma UnknownIsRejected(h: A.Hasher, world: L.World, tok: string, expires: int)
    requires !world.ldapOn && !world.imapOn
    ensures var a0 := A.State(map[], map[], map[]);
            L.Login(h, a0, "u", "pw", world, tok, expires) == (a0, L.Rejected)
  {
  }

  /** The server after one failed login. */
  lemma FirstFailure(h: A.Hasher, ttl: int, c: LiveConfig, world: L.World)
    requires !world.ldapOn && !world.imapOn
    ensures var a0 := A.State(map[], map[], map[]);
            Run(h, ttl, c, a0, [Login("a", "u", "pw", world, "tok", 1)]) ==
            State(T.RecordFailure(T.Initial(c), "a", "u", 1), a0, [Event(LoginFailed, "u", "a", 1, false)])
  {
    var a0, login := A.State(map[], map[], map[]), Login("a", "u", "pw", world, "tok", 1);
    UnknownIsRejected(h, world, "tok", 1 + ttl);
    assert T.Check(T.Initial(c), "a", "u", 1) == (T.Initial(c), T.Allowed);
    assert [] + [login] == [login];
    RunGrows(h, ttl, c, a0, [], login);
  }

  lemma OneFailureLocks(c: LiveConfig)
    requires c.maxAttempts == 1
    ensures 2 < H.LockedUntil(c, [1])
  {
    LockoutBounds(c, 0);
    assert H.Chain([1], H.Window(c)) == 1;
  }

  lemma OneFailureShown(e: Event, k: T.Key)
    requires Fails(e, k)
    ensures FailedSince([e], k) == [e.time]
  {
    OneEvent([], e, k);
    assert [] + [e] == [e];
  }

  /** A reset leaves no trace: after one failed login and a reset of everything, the throttle
      lets a username in that the log, read alone, still shows as locked. */
  lemma ResetIsNotLogged(h: A.Hasher, ttl: int, world: L.World)
    requires !world.ldapOn && !world.imapOn
    ensures var c: LiveConfig := Config(1, 15, 1, 64);
            var w := [Login("a", "u", "pw", world, "tok", 1), Unlock(true, "", "", 1)];
            var y := Run(h, ttl, c, A.State(map[], map[], map[]), w);
            && Timed(w)
            && 2 < H.LockedUntil(c, FailedSince(y.log, T.User("u")))
            && T.Check(y.throttle, "a", "u", 2).1 == T.Allowed
  {
    var c: LiveConfig := Config(1, 15, 1, 64);
    var a0, login, unlock := A.State(map[], map[], map[]), Login("a", "u", "pw", world, "tok", 1), Unlock(true, "", "", 1);
    FirstFailure(h, ttl, c, world);
    assert [login] + [unlock] == [login, unlock];
    RunGrows(h, ttl, c, a0, [login], unlock);
    assert Front([login, unlock]) == [login] && Front([login]) == [];
    OneFailureShown(Event(LoginFailed, "u", "a", 1, false), T.User("u"));
    OneFailureLocks(c);
  }

  /** A client's event passes for a failed login: with no login at all, the log shows an address
      as locked from which the throttle lets logins in. */
  lemma PostShowsLocked(h: A.Hasher, ttl: int, a0: A.State, addr: string)
    ensures var c: LiveConfig := Config(1, 15, 1, 64);
            var w := [Post(LoginFailed, addr, 1)];
            var y := Run(h, ttl, c, a0, w);
            && Timed(w)
            && 2 < H.LockedUntil(c, FailedSince(y.log, T.IP(addr)))
            && T.Check(y.throttle, addr, "u", 2).1 == T.Allowed
  {
    var c: LiveConfig := Config(1, 15, 1, 64);
    var post := Post(LoginFailed, addr, 1);
    assert [] + [post] == [post];
    RunGrows(h, ttl, c, a0, [], post);
    assert Front([post]) == [];
    var e := Event(LoginFailed, "", addr, 1, true);
    assert Run(h, ttl, c, a0, [post]).log == [] + [e] == [e];
    OneFailureShown(e, T.IP(addr));
    OneFailureLocks(c);
  }

  /** And for a successful one: after a failed login from the same address, the log shows nothing
      while the throttle turns the address away. */
  lemma PostHidesFailure(h: A.Hasher, ttl: int, world: L.World)
    requires !world.ldapOn && !world.imapOn
    ensures var c: LiveConfig := Config(1, 15, 1, 64);
            var w := [Login("a", "u", "pw", world, "tok", 1), Post(LoginSuccess, "a", 1)];
            var y := Run(h, ttl, c, A.State(map[], map[], map[]), w);
            && Timed(w)
            && FailedSince(y.log, T.IP("a")) == []
            && T.Check(y.throttle, "a", "u", 2).1 == T.IPLocked
  {
    var c: LiveConfig := Config(1, 15, 1, 64);
    var a0, login, post := A.State(map[], map[], map[]), Login("a", "u", "pw", world, "tok", 1), Post(LoginSuccess, "a", 1);
    FirstFailure(h, ttl, c, world);
    assert [login] + [post] == [login, post];
    RunGrows(h, ttl, c, a0, [login], post);
    assert Front([login, post]) == [login] && Front([login]) == [];
    OneEvent(Run(h, ttl, c, a0, [login]).log, Event(LoginSuccess, "", "a", 1, true), T.IP("a"));
    FirstFailureHolds(c);
  }

  lemma FirstFailureHolds(c: LiveConfig)
    requires Fits(c) && c.maxAttempts == 1
    ensures T.Check(T.RecordFailure(T.Initial(c), "a", "u", 1), "a", "u", 2).1 == T.IPLocked
  {
    LockoutExact(c, 0);
  }
}
