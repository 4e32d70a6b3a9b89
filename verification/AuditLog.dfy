/** The in-memory audit log, the store's objects behind it, and the size formatter. */
module AuditLog {
  import opened AuditQuery
  import P = AuditPipeline

  /** The store's channel, the flusher's batch and the database, updated in place. */
  class Store {
    var ch: seq<Event>
    var batch: seq<Event>
    var db: seq<Event>
    var closed: bool
    var exited: bool

    ghost var accepted: seq<Event>
    ghost var drains: seq<P.Drained<Event>>
    ghost var offered: seq<Event>
    ghost var dropped: seq<Event>

    ghost function Abs(): P.State<Event>
      reads this
    {
      P.State(ch, batch, db, closed, exited, accepted, drains, offered, dropped)
    }

    constructor ()
      ensures Abs() == P.Empty<Event>()
    {
      ch, batch, db, closed, exited := [], [], [], false, false;
      accepted, drains, offered, dropped := [], [], [], [];
    }

    /** A send that never blocks: a full channel drops the event. */
    method Enqueue(e: Event)
      requires !closed
      modifies this
      ensures Abs() == P.Step(old(Abs()), P.Enqueue(e))
    {
      if |ch| < P.CHANNEL_CAPACITY {
        ch := ch + [e];
        accepted := accepted + [e];
      } else {
        dropped := dropped + [e];
      }
      offered := offered + [e];
    }

    /** Inserts the batch row by row in one transaction, which commits as a whole or not at all. */
    method Drain(commits: bool)
      modifies this
      ensures Abs() == P.Drain(old(Abs()), commits)
    {
      if |batch| == 0 {
        return;
      }
      var tx: seq<Event> := [];
      for i := 0 to |batch|
        invariant tx == batch[..i]
        invariant Abs() == old(Abs())
      {
        tx := tx + [batch[i]];
      }
      if commits {
        db := db + tx;
      }
      drains := drains + [P.Drained(batch, commits)];
      batch := [];
    }

    /** The flusher's turn when its select takes the channel. */
    method Receive(commits: bool)
      requires P.Enabled(Abs(), P.Op<Event>.Receive(commits))
      modifies this
      ensures Abs() == P.Step(old(Abs()), P.Op<Event>.Receive(commits))
    {
      if ch == [] {
        exited := true;
        return;
      }
      var e := ch[0];
      ch := ch[1..];
      batch := batch + [e];
      if |batch| >= P.BATCH_SIZE {
        Drain(commits);
      }
    }

    /** The flusher's turn when its select takes the ticker. */
    method Tick(commits: bool)
      requires P.Enabled(Abs(), P.Op<Event>.Tick(commits))
      modifies this
      ensures Abs() == P.Step(old(Abs()), P.Op<Event>.Tick(commits))
    {
      if |batch| > 0 {
        Drain(commits);
      }
    }

    /** Closes the channel and waits for the flusher, whose remaining turns the scheduler picks. */
    method Close(turns: seq<P.Op<Event>>)
      requires !closed && P.Closing(P.Step(Abs(), P.Op<Event>.Close), turns)
      modifies this
      ensures closed && exited
      ensures Abs() == P.Run(P.Step(old(Abs()), P.Op<Event>.Close), turns)
    {
      closed := true;
      assert Abs() == P.Step(old(Abs()), P.Op<Event>.Close);
      for i := 0 to |turns|
        invariant P.Closing(Abs(), turns[i..]) && closed
        invariant P.Run(Abs(), turns[i..]) == P.Run(P.Step(old(Abs()), P.Op<Event>.Close), turns)
      {
        P.FirstTurn(Abs(), turns[i..]);
        assert turns[i..][0] == turns[i] && turns[i..][1..] == turns[i + 1..];
        Turn(turns[i]);
      }
    }

    /** One turn of the flusher. */
    method Turn(op: P.Op<Event>)
      requires (op.Receive? || op.Tick?) && P.Enabled(Abs(), op)
      modifies this
      ensures Abs() == P.Step(old(Abs()), op) && closed == old(closed)
    {
      match op
      case Receive(commits) => Receive(commits);
      case Tick(commits) => Tick(commits);
    }
  }

  // ---- the window ----

  /** The last m elements, or all of them. */
  function LastOf<T>(s: seq<T>, m: nat): seq<T> {
    if |s| <= m then s else s[|s| - m..]
  }

  /** A window onto a history: as much of its end as there is room for. */
  predicate IsWindow(window: seq<Event>, history: seq<Event>, room: nat) {
    && |window| == (if |history| <= room then |history| else room)
    && history[|history| - |window|..] == window
  }

  lemma LastOfIsWindow(history: seq<Event>, m: nat)
    ensures IsWindow(LastOf(history, m), history, m)
    ensures m > 0 && history != [] ==> LastOf(history, m) != [] && LastOf(history, m)[|LastOf(history, m)| - 1] == history[|history| - 1]
  {
  }

  /** A window that has slid by one element is still the last m of all. */
  lemma Slide(s: seq<Event>, e: Event, m: nat)
    requires m > 0
    ensures LastOf(s + [e], m) == LastOf(LastOf(s, m) + [e], m)
  {
  }

  /** How often an action occurs. */
  function Occurrences(s: seq<Event>, action: string): nat {
    if s == [] then 0
    else Occurrences(s[..|s| - 1], action) + if s[|s| - 1].action == action then 1 else 0
  }

  lemma OneMore(s: seq<Event>, e: Event)
    ensures forall action: string ::
      Occurrences(s + [e], action) == Occurrences(s, action) + if e.action == action then 1 else 0
  {
    assert (s + [e])[..|s + [e]| - 1] == s;
  }

  /** The in-memory filter compares for equality, where the database uses LIKE for the user. */
  predicate Exactly(q: Query, e: Event) {
    (q.user != "" ==> e.user == q.user) && (q.action != "" ==> e.action == q.action)
  }

  /** Newest first, exact matches only. */
  function NewestMatching(s: seq<Event>, q: Query): seq<Event> {
    if s == [] then []
    else
      var older := NewestMatching(s[..|s| - 1], q);
      if Exactly(q, s[|s| - 1]) then [s[|s| - 1]] + older else older
  }

  function Limited<T>(s: seq<T>, limit: int): seq<T> {
    if limit > 0 && |s| > limit then s[..limit] else s
  }

  function Reversed(s: seq<Event>): seq<Event> {
    seq(|s|, i requires 0 <= i < |s| => s[|s| - 1 - i])
  }

  /** The elements that match, in order. */
  function Filtered(s: seq<Event>, q: Query): seq<Event> {
    if s == [] then []
    else if Exactly(q, s[0]) then [s[0]] + Filtered(s[1..], q)
    else Filtered(s[1..], q)
  }

  /** Filtering keeps what matches user and action, exactly, and nothing else. */
  lemma {:induction false} FilteredHolds(s: seq<Event>, q: Query, e: Event)
    ensures e in Filtered(s, q) <==>
            e in s && (q.user == "" || e.user == q.user) && (q.action == "" || e.action == q.action)
  {
    if s == [] {
    } else {
      FilteredHolds(s[1..], q, e);
      assert s == [s[0]] + s[1..];
    }
  }

  lemma {:induction false} UnfilteredKeepsAll(s: seq<Event>, q: Query)
    requires q.user == "" && q.action == ""
    ensures Filtered(s, q) == s
  {
    if s == [] {
    } else {
      UnfilteredKeepsAll(s[1..], q);
    }
  }

  lemma ReversedHolds(s: seq<Event>, e: Event)
    ensures e in Reversed(s) <==> e in s
  {
    if e in s {
      var i :| 0 <= i < |s| && s[i] == e;
      assert Reversed(s)[|s| - 1 - i] == e;
    }
  }

  /** What a store-less query finds, in terms of the window. */
  ghost predicate Found(out: seq<Event>, q: Query, window: seq<Event>) {
    && (q.limit > 0 ==> |out| <= q.limit)
    && (forall e :: e in out ==>
          e in window && (q.user == "" || e.user == q.user) && (q.action == "" || e.action == q.action))
    && (q.limit <= 0 ==> forall e :: e in window && (q.user == "" || e.user == q.user) && (q.action == "" || e.action == q.action) ==> e in out)
    && (q.user == "" && q.action == "" && window != [] ==> out != [] && out[0] == window[|window| - 1])
  }

  lemma LimitedIsFound(q: Query, window: seq<Event>)
    ensures Found(Limited(Filtered(Reversed(window), q), q.limit), q, window)
  {
    var rows := Filtered(Reversed(window), q);
    forall e
      ensures e in rows <==> e in window && (q.user == "" || e.user == q.user) && (q.action == "" || e.action == q.action)
    {
      FilteredHolds(Reversed(window), q, e);
      ReversedHolds(window, e);
    }
    if q.user == "" && q.action == "" {
      UnfilteredKeepsAll(Reversed(window), q);
    }
  }

  /** Scanning backwards is filtering the reversed list. */
  lemma {:induction false} NewestMatchingReverses(s: seq<Event>, q: Query)
    ensures NewestMatching(s, q) == Filtered(Reversed(s), q)
  {
    if s == [] {
    } else {
      var front, r := s[..|s| - 1], Reversed(s);
      NewestMatchingReverses(front, q);
      assert r[0] == s[|s| - 1];
      assert r[1..] == Reversed(front);
    }
  }

  class Log {
    const max: nat
    const store: Store?
    var events: seq<Event>
    var logins: nat
    var loginFails: nat
    var active: int  // downloads being streamed

    ghost var history: seq<Event>  // every event ever added

    /** The window and the counters are those of the history. */
    ghost predicate Kept()
      reads this
    {
      && max > 0
      && events == LastOf(history, max)
      && logins == Occurrences(history, "login_success")
      && loginFails == Occurrences(history, "login_failed")
    }

    ghost predicate Valid()
      reads this, store
    {
      Kept() && (store != null ==> store.offered == history)
    }

    /** The store, if there is one, takes events. */
    ghost predicate Open()
      reads this, store
    {
      store != null ==> !store.closed
    }

    constructor (maxEvents: int, store: Store?)
      requires store != null ==> store.offered == []
      ensures Valid() && history == [] && this.store == store && active == 0
      ensures max == if maxEvents <= 0 then 5000 else maxEvents
    {
      max := if maxEvents <= 0 then 5000 else maxEvents;
      this.store := store;
      events, logins, loginFails, active, history := [], 0, 0, 0, [];
    }

    method CountLogin(action: string)
      modifies this`logins, this`loginFails
      ensures logins == old(logins) + if action == "login_success" then 1 else 0
      ensures loginFails == old(loginFails) + if action == "login_failed" then 1 else 0
    {
      if action == "login_success" {
        logins := logins + 1;
      } else if action == "login_failed" {
        loginFails := loginFails + 1;
      }
    }

    method Push(e: Event)
      requires max > 0 && events == LastOf(history, max)
      modifies this`events, this`history
      ensures history == old(history) + [e] && events == LastOf(history, max) && IsWindow(events, history, max)
    {
      Slide(history, e, max);
      LastOfIsWindow(history + [e], max);
      history := history + [e];
      events := events + [e];
      if |events| > max {
        events := events[|events| - max..];
      }
    }

    /** Counts an event and puts it into the window. */
    method Keep(e: Event)
      requires Kept()
      modifies this`events, this`logins, this`loginFails, this`history
      ensures Kept() && history == old(history) + [e] && IsWindow(events, history, max)
    {
      CountLogin(e.action);
      OneMore(history, e);
      Push(e);
    }

    /** The window stays the last max events and the counters count the whole history. An event
        without a time gets the current one. */
    method AddEvent(e0: Event, now: int)
      requires Valid() && Open()
      modifies this`events, this`logins, this`loginFails, this`history, store
      ensures Valid() && Open()
      ensures history == old(history) + [if e0.time == 0 then e0.(time := now) else e0]
      ensures IsWindow(events, history, max)
      ensures store != null ==> store.Abs() == P.Step(old(store.Abs()), P.Enqueue(history[|history| - 1]))
    {
      var e := e0;
      if e.time == 0 {
        e := e.(time := now);
      }
      Keep(e);
      if store != null {
        store.Enqueue(e);
      }
    }

    method StartDownload()
      modifies this`active
      ensures active == old(active) + 1
    {
      active := active + 1;
    }

    method EndDownload()
      modifies this`active
      ensures active == old(active) - 1
    {
      active := active - 1;
    }

    /** The store-less query: the window backwards, exact matches only, up to the limit; offsets
        and time bounds are not looked at. */
    method Scan(q: Query) returns (out: seq<Event>)
      ensures out == Limited(Filtered(Reversed(events), q), q.limit)
    {
      NewestMatchingReverses(events, q);
      out := [];
      var i := |events|;
      assert events[..i] == events;
      while i > 0
        invariant 0 <= i <= |events|
        invariant NewestMatching(events, q) == out + NewestMatching(events[..i], q)
        invariant q.limit > 0 ==> |out| < q.limit
      {
        i := i - 1;
        var e := events[i];
        assert events[..i + 1][..i] == events[..i];
        if q.user != "" && e.user != q.user {
          continue;
        }
        if q.action != "" && e.action != q.action {
          continue;
        }
        assert out + ([e] + NewestMatching(events[..i], q)) == (out + [e]) + NewestMatching(events[..i], q);
        out := out + [e];
        if q.limit > 0 && |out| >= q.limit {
          return;
        }
      }
    }

    /** With a store the database decides: `rows` is its table in the order it chooses. Without
        one the window does, whose newest event comes first when nothing is filtered. */
    method Query(cmp: Comparisons, q: Query, rows: seq<Event>) returns (out: seq<Event>)
      requires Valid() && (store != null ==> InResultOrder(cmp, rows, store.db))
      ensures store == null ==>
        out == Limited(Filtered(Reversed(events), q), q.limit) && Found(out, q, events) && IsWindow(events, history, max)
      ensures store == null && q.user == "" && q.action == "" && history != [] ==> out != [] && out[0] == history[|history| - 1]
      ensures store != null ==> out == Page(Matching(cmp, q, rows), EffectiveLimit(q), EffectiveOffset(q))
    {
      if store != null {
        var page := RunQuery(cmp, q, rows);
        return page.value;
      }
      LimitedIsFound(q, events);
      LastOfIsWindow(history, max);
      out := Scan(q);
    }
  }

  // ---- what a query can miss ----

  /** The batches whose transaction did not commit. */
  function RolledBack(drains: seq<P.Drained<Event>>): seq<Event> {
    if drains == [] then [] else
    var last := drains[|drains| - 1];
    RolledBack(drains[..|drains| - 1]) + if last.committed then [] else last.batch
  }

  lemma {:induction false} HandedOver(drains: seq<P.Drained<Event>>)
    ensures multiset(P.Events(drains, false)) == multiset(P.Events(drains, true)) + multiset(RolledBack(drains))
  {
    if drains == [] {
    } else {
      HandedOver(drains[..|drains| - 1]);
    }
  }

  /** In every reachable state of the store, each addition of a matching event to the log is among
      the rows of a query, in the batch being collected, in the channel, among the dropped events
      or in a batch rolled back, and in only one of them: a query misses nothing else. */
  lemma QueryMissesExactly(cmp: Comparisons, q: Query, w: seq<P.Op<Event>>, rows: seq<Event>, e: Event)
    requires P.CanRun(P.Empty<Event>(), w) && Matches(cmp, q, e)
    requires InResultOrder(cmp, rows, P.Run(P.Empty<Event>(), w).written)
    ensures var s := P.Run(P.Empty<Event>(), w);
            multiset(s.offered)[e] ==
            multiset(Matching(cmp, q, rows))[e] + multiset(s.batch)[e] + multiset(s.ch)[e]
            + multiset(s.dropped)[e] + multiset(RolledBack(s.drains))[e]
  {
    var s := P.Run(P.Empty<Event>(), w);
    P.RunConserves(P.Empty<Event>(), w);
    HandedOver(s.drains);
    MatchingIsFilter(cmp, q, rows, e);
  }

  /** The query for one action. */
  function OneAction(action: string): Query {
    Query("", action, 0, 0, 0, 0)
  }

  lemma {:induction false} MatchingConcat(cmp: Comparisons, q: Query, a: seq<Event>, b: seq<Event>)
    ensures Matching(cmp, q, a + b) == Matching(cmp, q, a) + Matching(cmp, q, b)
  {
    if a == [] {
      assert a + b == b;
    } else {
      MatchingConcat(cmp, q, a[1..], b);
      assert (a + b)[1..] == a[1..] + b;
    }
  }

  lemma {:induction false} OccurrencesMatch(cmp: Comparisons, action: string, s: seq<Event>)
    requires action != ""
    ensures Occurrences(s, action) == |Matching(cmp, OneAction(action), s)|
  {
    if s == [] {
    } else {
      var front, e := s[..|s| - 1], s[|s| - 1];
      OccurrencesMatch(cmp, action, front);
      assert s == front + [e];
      MatchingConcat(cmp, OneAction(action), front, [e]);
      assert [e][1..] == [];
    }
  }

  /** Matching does not depend on the order, but for the order. */
  lemma MatchingPermutes(cmp: Comparisons, q: Query, a: seq<Event>, b: seq<Event>)
    requires multiset(a) == multiset(b)
    ensures |Matching(cmp, q, a)| == |Matching(cmp, q, b)|
  {
    var x, y := multiset(Matching(cmp, q, a)), multiset(Matching(cmp, q, b));
    forall e
      ensures x[e] == y[e]
    {
      MatchingIsFilter(cmp, q, a, e);
      MatchingIsFilter(cmp, q, b, e);
    }
    assert x == y;
    assert |x| == |Matching(cmp, q, a)| && |y| == |Matching(cmp, q, b)|;
  }

  lemma SumMatches(cmp: Comparisons, q: Query, a: seq<Event>, b: seq<Event>, c: seq<Event>)
    requires multiset(a) == multiset(b) + multiset(c)
    ensures |Matching(cmp, q, a)| == |Matching(cmp, q, b)| + |Matching(cmp, q, c)|
  {
    assert multiset(b + c) == multiset(a);
    MatchingPermutes(cmp, q, a, b + c);
    MatchingConcat(cmp, q, b, c);
  }

  /** The counters run ahead of the table by exactly what is on its way or lost: in every reachable
      state of the store, an action occurs in the history as often as an unbounded query for it
      finds rows, and in the batch, the channel, the dropped events and the rolled-back batches. */
  lemma CountersRunAheadExactly(cmp: Comparisons, action: string, w: seq<P.Op<Event>>, rows: seq<Event>)
    requires P.CanRun(P.Empty<Event>(), w) && action != ""
    requires InResultOrder(cmp, rows, P.Run(P.Empty<Event>(), w).written)
    ensures var s := P.Run(P.Empty<Event>(), w);
            Occurrences(s.offered, action) ==
            |Matching(cmp, OneAction(action), rows)| + Occurrences(s.batch, action) + Occurrences(s.ch, action)
            + Occurrences(s.dropped, action) + Occurrences(RolledBack(s.drains), action)
  {
    var s, q := P.Run(P.Empty<Event>(), w), OneAction(action);
    P.RunConserves(P.Empty<Event>(), w);
    HandedOver(s.drains);
    var handed := P.Events(s.drains, false);
    SumMatches(cmp, q, s.offered, s.accepted, s.dropped);
    MatchingConcat(cmp, q, handed + s.batch, s.ch);
    MatchingConcat(cmp, q, handed, s.batch);
    SumMatches(cmp, q, handed, s.written, RolledBack(s.drains));
    MatchingPermutes(cmp, q, rows, s.written);
    OccurrencesMatch(cmp, action, s.offered);
    OccurrencesMatch(cmp, action, s.batch);
    OccurrencesMatch(cmp, action, s.ch);
    OccurrencesMatch(cmp, action, s.dropped);
    OccurrencesMatch(cmp, action, RolledBack(s.drains));
  }

  // ---- sizes ----

  function Pow1024(n: nat): (p: int)
    ensures p >= 1
  {
    if n == 0 then 1 else 1024 * Pow1024(n - 1)
  }

  /** A size as it is shown: plain bytes, or a quotient with a unit letter. */
  datatype Size = Bytes(n: int) | Scaled(dividend: int, divisor: int, unit: char)

  const UNITS: string := "KMGTPE"

  /** The unit index is always in range and the divisor is the right power: the quotient lies
      between 1 and 1024. */
  method FormatBytes(b: int) returns (s: Size)
    requires b <= 0x7FFF_FFFF_FFFF_FFFF
    ensures b < 1024 ==> s == Bytes(if b <= 0 then 0 else b)
    ensures b >= 1024 ==>
      exists exp: nat :: exp <= 5 && s == Scaled(b, Pow1024(exp + 1), "KMGTPE"[exp]) &&
        Pow1024(exp + 1) <= b < 1024 * Pow1024(exp + 1) && Pow1024(exp + 1) <= 0x7FFF_FFFF_FFFF_FFFF
  {
    if b <= 0 {
      return Bytes(0);
    }
    if b < 1024 {
      return Bytes(b);
    }
    var div, exp := 1024, 0;
    var n := b / 1024;
    while n >= 1024
      invariant 0 <= exp && div == Pow1024(exp + 1)
      invariant n >= 1 && n * div <= b < (n + 1) * div
      decreases n
    {
      var n' := n / 1024;
      ScaleDown(b, n, div);
      div := div * 1024;
      exp := exp + 1;
      n := n';
    }
    MulMonotone(1, n, div);
    MulMonotone(n + 1, 1024, div);
    ExponentBound(exp, b);
    s := Scaled(b, div, UNITS[exp]);
  }

  lemma MulMonotone(x: int, y: int, z: int)
    requires x <= y && z >= 0
    ensures x * z <= y * z
  {
  }

  /** Dividing once more keeps b between n and n + 1 divisors. */
  lemma ScaleDown(b: int, n: int, div: int)
    requires n >= 0 && div >= 1 && n * div <= b < (n + 1) * div
    ensures n / 1024 * (div * 1024) <= b < (n / 1024 + 1) * (div * 1024)
  {
    var m := n / 1024;
    MulMonotone(m * 1024, n, div);
    MulMonotone(n + 1, (m + 1) * 1024, div);
    Reassociate(m, div);
    Reassociate(m + 1, div);
  }

  lemma Reassociate(x: int, y: int)
    ensures x * 1024 * y == x * (y * 1024)
  {
  }

  lemma {:induction false} Pow1024Monotone(m: nat, n: nat)
    requires m <= n
    ensures Pow1024(m) <= Pow1024(n)
  {
    if m == n {
    } else {
      Pow1024Monotone(m, n - 1);
    }
  }

  lemma ExponentBound(exp: nat, b: int)
    requires Pow1024(exp + 1) <= b <= 0x7FFF_FFFF_FFFF_FFFF
    ensures exp <= 5
  {
    SeventhPower();
    if exp > 5 {
      Pow1024Monotone(7, exp + 1);
    }
  }

  lemma SeventhPower()
    ensures Pow1024(7) > 0x7FFF_FFFF_FFFF_FFFF
  {
    assert Pow1024(3) == 1024 * 1024 * 1024 by { assert Pow1024(1) == 1024; }
    assert Pow1024(5) == 1024 * 1024 * Pow1024(3);
    assert Pow1024(7) == 1024 * 1024 * Pow1024(5);
  }
}
