/** The audit store's write path: a bounded channel, a flusher that collects batches, and a
    database that takes a batch or loses it. Producers, the flusher's turns and Close may
    interleave in any order; the history of accepted events is carried along. */
module AuditPipeline {

  const CHANNEL_CAPACITY: nat := 10000
  const BATCH_SIZE: nat := 500

  /** One batch handed to the database, and whether its transaction committed. */
  datatype Drained<E> = Drained(batch: seq<E>, committed: bool)

  datatype State<E> = State(
    ch: seq<E>, batch: seq<E>, written: seq<E>, closed: bool, exited: bool,
    accepted: seq<E>,           // every event the channel took, in order
    drains: seq<Drained<E>>,    // every batch handed over, in order
    offered: seq<E>,            // every event the log offered, in order
    dropped: seq<E>)            // those that found the channel full

  function Empty<E>(): State<E> {
    State([], [], [], false, false, [], [], [], [])
  }

  datatype Op<E> =
    | Enqueue(e: E)
    | Receive(commits: bool)  // the flusher's select takes the channel
    | Tick(commits: bool)     // the flusher's select takes the ticker
    | Close

  /** Nothing is sent or closed after Close; the flusher receives when there is something to
      receive, and once it has returned it takes no more turns. */
  predicate Enabled<E>(s: State<E>, op: Op<E>) {
    match op
    case Enqueue(_) => !s.closed
    case Receive(_) => !s.exited && (s.ch != [] || s.closed)
    case Tick(_) => !s.exited
    case Close => !s.closed
  }

  function Drain<E>(s: State<E>, commits: bool): State<E> {
    if s.batch == [] then s
    else s.(written := if commits then s.written + s.batch else s.written,
            drains := s.drains + [Drained(s.batch, commits)],
            batch := [])
  }

  function Step<E>(s: State<E>, op: Op<E>): State<E>
    requires Enabled(s, op)
  {
    match op
    case Enqueue(e) =>
      if |s.ch| < CHANNEL_CAPACITY
      then s.(ch := s.ch + [e], accepted := s.accepted + [e], offered := s.offered + [e])
      else s.(offered := s.offered + [e], dropped := s.dropped + [e])
    case Receive(commits) =>
      if s.ch == [] then s.(exited := true) else
      var s' := s.(ch := s.ch[1..], batch := s.batch + [s.ch[0]]);
      if |s'.batch| >= BATCH_SIZE then Drain(s', commits) else s'
    case Tick(commits) => Drain(s, commits)
    case Close => s.(closed := true)
  }

  predicate CanRun<E>(s: State<E>, w: seq<Op<E>>)
    decreases w
  {
    w != [] ==> Enabled(s, w[0]) && CanRun(Step(s, w[0]), w[1..])
  }

  function Run<E>(s: State<E>, w: seq<Op<E>>): State<E>
    requires CanRun(s, w)
    decreases w
  {
    if w == [] then s else Run(Step(s, w[0]), w[1..])
  }

  // ---- conservation ----

  /** The events of the batches handed over, all of them or only the committed ones. */
  function Events<E>(drains: seq<Drained<E>>, onlyCommitted: bool): seq<E> {
    if drains == [] then [] else
    var last := drains[|drains| - 1];
    Events(drains[..|drains| - 1], onlyCommitted) +
    if onlyCommitted && !last.committed then [] else last.batch
  }

  ghost predicate Conserved<E>(s: State<E>) {
    && s.accepted == Events(s.drains, false) + s.batch + s.ch
    && s.written == Events(s.drains, true)
    && |s.ch| <= CHANNEL_CAPACITY
    && |s.batch| < BATCH_SIZE
    && multiset(s.offered) == multiset(s.accepted) + multiset(s.dropped)
    && (s.exited ==> s.closed && s.ch == [])
  }

  lemma DrainConserves<E>(s: State<E>, commits: bool)
    requires s.accepted == Events(s.drains, false) + s.batch + s.ch && s.written == Events(s.drains, true)
    ensures var s' := Drain(s, commits);
            s'.accepted == Events(s'.drains, false) + s'.batch + s'.ch && s'.written == Events(s'.drains, true)
  {
    if s.batch != [] {
      var s' := Drain(s, commits);
      assert s'.drains[..|s'.drains| - 1] == s.drains;
      assert Events(s'.drains, false) == Events(s.drains, false) + s.batch;
    }
  }

  lemma ReceiveConserves<E>(s: State<E>, commits: bool)
    requires s.ch != [] && !s.exited && Conserved(s)
    ensures Conserved(Step(s, Receive(commits)))
  {
    var s' := s.(ch := s.ch[1..], batch := s.batch + [s.ch[0]]);
    assert s'.batch + s'.ch == s.batch + s.ch;
    assert Events(s.drains, false) + s'.batch + s'.ch == Events(s.drains, false) + (s'.batch + s'.ch);
    DrainConserves(s', commits);
  }

  lemma StepConserves<E>(s: State<E>, op: Op<E>)
    requires Enabled(s, op) && Conserved(s)
    ensures Conserved(Step(s, op))
  {
    match op
    case Enqueue(e) =>
      assert Events(s.drains, false) + s.batch + (s.ch + [e]) == Events(s.drains, false) + s.batch + s.ch + [e];
    case Receive(commits) =>
      if s.ch != [] {
        ReceiveConserves(s, commits);
      }
    case Tick(commits) => DrainConserves(s, commits);
    case Close =>
  }

  /** Over every interleaving: the accepted events are the batches handed over, then the batch
      being collected, then the channel, in order; the database holds exactly the committed
      batches; the channel and the batch stay within their bounds; and every event offered was
      accepted or counted as dropped. */
  lemma {:induction false} RunConserves<E>(s: State<E>, w: seq<Op<E>>)
    requires CanRun(s, w) && Conserved(s)
    ensures Conserved(Run(s, w))
    decreases w
  {
    if w == [] {
    } else {
      StepConserves(s, w[0]);
      RunConserves(Step(s, w[0]), w[1..]);
    }
  }

  /** An event is dropped exactly when the channel is full at the moment it is offered. */
  lemma DropsOnlyWhenFull<E>(s: State<E>, e: E)
    requires !s.closed && Conserved(s)
    ensures var s' := Step(s, Enqueue(e));
            && (s'.dropped == s.dropped + [e] <==> |s.ch| == 10000)
            && (s'.accepted == s.accepted + [e] <==> |s.ch| < 10000)
  {
    assert |s.accepted + [e]| == |s.accepted| + 1 && |s.dropped + [e]| == |s.dropped| + 1;
  }

  /** Every transaction of the run commits. */
  predicate AllCommit<E>(w: seq<Op<E>>) {
    forall i :: 0 <= i < |w| ==> (w[i].Receive? || w[i].Tick? ==> w[i].commits)
  }

  predicate Committed<E>(drains: seq<Drained<E>>) {
    forall i :: 0 <= i < |drains| ==> drains[i].committed
  }

  lemma {:induction false} CommittedEvents<E>(drains: seq<Drained<E>>)
    requires Committed(drains)
    ensures Events(drains, true) == Events(drains, false)
  {
    if drains == [] {
    } else {
      CommittedEvents(drains[..|drains| - 1]);
    }
  }

  lemma {:induction false} DrainsCommitted<E>(s: State<E>, w: seq<Op<E>>)
    requires CanRun(s, w) && AllCommit(w) && Committed(s.drains)
    ensures Committed(Run(s, w).drains)
    decreases w
  {
    if w == [] {
    } else {
      assert AllCommit(w[1..]) by {
        assert forall i :: 0 <= i < |w[1..]| ==> w[1..][i] == w[i + 1];
      }
      assert Committed(Step(s, w[0]).drains);
      DrainsCommitted(Step(s, w[0]), w[1..]);
    }
  }

  /** When the transactions commit, nothing is lost between acceptance and the database: what
      is missing from it is still in the batch or in the channel. After the flusher has returned
      the database is a prefix of what was accepted, short by the batch it abandoned. */
  lemma WrittenIsPrefix<E>(w: seq<Op<E>>)
    requires CanRun(Empty<E>(), w) && AllCommit(w)
    ensures var s := Run(Empty<E>(), w);
            && s.accepted == s.written + s.batch + s.ch
            && |s.ch| <= 10000 && |s.batch| <= 499
            && (s.exited ==> s.written <= s.accepted && |s.accepted| - |s.written| == |s.batch| <= 499)
  {
    RunConserves(Empty<E>(), w);
    DrainsCommitted(Empty<E>(), w);
    CommittedEvents(Run(Empty<E>(), w).drains);
  }

  // ---- what Close loses ----

  predicate OnlyReceives<E>(w: seq<Op<E>>) {
    forall i :: 0 <= i < |w| ==> w[i].Receive? && w[i].commits
  }

  lemma ExitedIsFinal<E>(s: State<E>, w: seq<Op<E>>)
    requires s.exited && CanRun(s, w) && OnlyReceives(w)
    ensures w == []
  {
  }

  /** The events of pending that fill whole batches, and the ones left over. */
  function Whole<E>(pending: seq<E>): seq<E> {
    pending[..|pending| - |pending| % BATCH_SIZE]
  }

  function LeftOver<E>(pending: seq<E>): seq<E> {
    pending[|pending| - |pending| % BATCH_SIZE..]
  }

  lemma OneBatchLess<E>(batch: seq<E>, rest: seq<E>)
    requires |batch| == BATCH_SIZE
    ensures Whole(batch + rest) == batch + Whole(rest)
    ensures LeftOver(batch + rest) == LeftOver(rest)
  {
    assert |batch + rest| % BATCH_SIZE == |rest| % BATCH_SIZE;
  }

  lemma ShortIsLeftOver<E>(batch: seq<E>)
    requires |batch| < BATCH_SIZE
    ensures Whole(batch) == [] && LeftOver(batch) == batch
  {
  }

  /** One receive changes neither what whole batches will add up to nor what is left over. */
  lemma ReceiveKeepsRemainder<E>(s: State<E>)
    requires s.ch != [] && |s.batch| < BATCH_SIZE && !s.exited
    ensures var s' := Step(s, Receive(true));
            && s'.written + Whole(s'.batch + s'.ch) == s.written + Whole(s.batch + s.ch)
            && LeftOver(s'.batch + s'.ch) == LeftOver(s.batch + s.ch)
            && |s'.batch| < BATCH_SIZE && !s'.exited && s'.closed == s.closed
  {
    var grown, rest := s.batch + [s.ch[0]], s.ch[1..];
    assert s.batch + s.ch == grown + rest;
    if |grown| >= BATCH_SIZE {
      OneBatchLess(grown, rest);
      assert [] + rest == rest;
      assert (s.written + grown) + Whole(rest) == s.written + (grown + Whole(rest));
    }
  }

  /** From Close to the flusher's return, if the ticker never comes first, whole batches are
      written and the remainder modulo the batch size is abandoned. */
  lemma {:induction false} CloseAbandonsRemainder<E>(s: State<E>, w: seq<Op<E>>)
    requires s.closed && !s.exited && |s.batch| < BATCH_SIZE
    requires CanRun(s, w) && OnlyReceives(w) && Run(s, w).exited
    ensures Run(s, w).written == s.written + Whole(s.batch + s.ch)
    ensures Run(s, w).batch == LeftOver(s.batch + s.ch)
    ensures Run(s, w).ch == []
    decreases w
  {
    assert w[0] == Receive(true);
    assert forall i :: 0 <= i < |w[1..]| ==> w[1..][i] == w[i + 1];
    var s' := Step(s, w[0]);
    if s.ch == [] {
      ExitedIsFinal(s', w[1..]);
      ShortIsLeftOver(s.batch);
      assert s.batch + s.ch == s.batch;
      assert s.written + [] == s.written;
    } else {
      ReceiveKeepsRemainder(s);
      CloseAbandonsRemainder(s', w[1..]);
    }
  }

  /** Without a tick Close keeps every accepted event exactly when the events still on their way
      fill whole batches. */
  lemma TicklessCloseKeepsAllExactly<E>(s: State<E>, w: seq<Op<E>>)
    requires Conserved(s) && !s.closed && s.accepted == s.written + s.batch + s.ch
    requires CanRun(Step(s, Op<E>.Close), w) && OnlyReceives(w) && Run(Step(s, Op<E>.Close), w).exited
    ensures Run(Step(s, Op<E>.Close), w).written == s.accepted <==> (|s.batch| + |s.ch|) % 500 == 0
  {
    var c := Step(s, Op<E>.Close);
    CloseAbandonsRemainder(c, w);
    var pending := s.batch + s.ch;
    assert s.accepted == s.written + pending;
    assert |s.written + Whole(pending)| == |s.accepted| <==> |pending| % BATCH_SIZE == 0;
    assert |pending| % BATCH_SIZE == 0 ==> Whole(pending) == pending;
  }

  // ---- what Close loses, over every schedule ----

  /** The flusher's turns from Close to its return, in the order the select happens to take them. */
  ghost predicate Closing<E>(s: State<E>, w: seq<Op<E>>) {
    && (forall i :: 0 <= i < |w| ==> w[i].Receive? || w[i].Tick?)
    && CanRun(s, w)
    && Run(s, w).exited
  }

  lemma TurnConserves<E>(s: State<E>, op: Op<E>)
    requires Enabled(s, op) && (op.Receive? || op.Tick?) && op.commits
    requires s.accepted == s.written + s.batch + s.ch
    ensures var s' := Step(s, op);
            && s'.accepted == s.accepted == s'.written + s'.batch + s'.ch
            && (s'.exited && !s.exited ==> s'.ch == [])
  {
    if op.Receive? && s.ch != [] {
      var grown, rest := s.batch + [s.ch[0]], s.ch[1..];
      assert s.batch + s.ch == grown + rest;
      assert s.written + s.batch + s.ch == s.written + (grown + rest);
    }
  }

  /** Between Close and the return nothing is accepted, and what is missing at the end is the
      batch that was being collected. */
  lemma {:induction false} ClosingConserves<E>(s: State<E>, w: seq<Op<E>>)
    requires Closing(s, w) && AllCommit(w) && s.accepted == s.written + s.batch + s.ch && (s.exited ==> s.ch == [])
    ensures Run(s, w).accepted == s.accepted == Run(s, w).written + Run(s, w).batch
    decreases w
  {
    if w == [] {
    } else {
      FirstTurn(s, w);
      TurnConserves(s, w[0]);
      ClosingConserves(Step(s, w[0]), w[1..]);
    }
  }

  lemma FirstTurn<E>(s: State<E>, w: seq<Op<E>>)
    requires Closing(s, w) && w != []
    ensures Enabled(s, w[0]) && (w[0].Receive? || w[0].Tick?)
    ensures AllCommit(w) ==> w[0].commits && AllCommit(w[1..])
    ensures Closing(Step(s, w[0]), w[1..]) && Run(s, w) == Run(Step(s, w[0]), w[1..])
  {
    assert w[0].Receive? || w[0].Tick?;
    assert forall i :: 0 <= i < |w[1..]| ==> w[1..][i] == w[i + 1];
  }

  lemma Prepend<E>(s: State<E>, op: Op<E>, w: seq<Op<E>>)
    requires Enabled(s, op) && (op.Receive? || op.Tick?) && op.commits && Closing(Step(s, op), w) && AllCommit(w)
    ensures Closing(s, [op] + w) && AllCommit([op] + w) && Run(s, [op] + w) == Run(Step(s, op), w)
  {
    assert ([op] + w)[1..] == w;
  }

  lemma LastTurn<E>(s: State<E>)
    requires s.closed && !s.exited && s.ch == []
    ensures Closing(s, [Op<E>.Receive(true)]) && Run(s, [Op<E>.Receive(true)]) == s.(exited := true)
  {
    var r := Op<E>.Receive(true);
    assert [r][1..] == [];
    assert CanRun(Step(s, r), []);
  }

  /** A schedule that takes the ticker just before the last event keeps that one back, and with
      no event in the channel the return keeps back the batch. */
  lemma {:induction false} SomeScheduleLoses<E>(s: State<E>) returns (w: seq<Op<E>>)
    requires s.closed && !s.exited && |s.batch| < BATCH_SIZE && s.batch + s.ch != []
    ensures Closing(s, w) && AllCommit(w) && Run(s, w).batch != []
    decreases |s.ch|
  {
    var receive, tick := Op<E>.Receive(true), Op<E>.Tick(true);
    if s.ch == [] {
      LastTurn(s);
      w := [receive];
    } else if |s.ch| == 1 {
      var s1 := Step(s, tick);
      var s2 := Step(s1, receive);
      LastTurn(s2);
      Prepend(s1, receive, [receive]);
      Prepend(s, tick, [receive] + [receive]);
      w := [tick] + ([receive] + [receive]);
    } else {
      w := SomeScheduleLoses(Step(s, receive));
      Prepend(s, receive, w);
      w := [receive] + w;
    }
  }

  /** A schedule that takes the ticker once more when the channel is empty keeps everything. */
  lemma {:induction false} SomeScheduleKeeps<E>(s: State<E>) returns (w: seq<Op<E>>)
    requires s.closed && !s.exited
    ensures Closing(s, w) && AllCommit(w) && Run(s, w).batch == []
    decreases |s.ch|
  {
    var receive, tick := Op<E>.Receive(true), Op<E>.Tick(true);
    if s.ch == [] {
      LastTurn(Step(s, tick));
      Prepend(s, tick, [receive]);
      w := [tick] + [receive];
    } else {
      w := SomeScheduleKeeps(Step(s, receive));
      Prepend(s, receive, w);
      w := [receive] + w;
    }
  }

  /** When the transactions commit, Close is sure to keep every accepted event, whatever turns the flusher's select takes
      before it finds the channel closed, exactly when nothing is on its way. */
  lemma CloseKeepsAllExactly<E>(s: State<E>)
    requires Conserved(s) && !s.closed && s.accepted == s.written + s.batch + s.ch
    ensures (forall w :: Closing(Step(s, Op<E>.Close), w) && AllCommit(w) ==> Run(Step(s, Op<E>.Close), w).written == s.accepted)
            <==> s.batch == [] && s.ch == []
  {
    var c := Step(s, Op<E>.Close);
    if s.batch == [] && s.ch == [] {
      forall w | Closing(c, w) && AllCommit(w)
        ensures Run(c, w).written == s.accepted
      {
        ClosingConserves(c, w);
        NothingComes(c, w);
      }
    } else {
      assert |s.batch + s.ch| > 0;
      var w := SomeScheduleLoses(c);
      ClosingConserves(c, w);
      assert |Run(c, w).written| < |s.accepted|;
    }
  }

  lemma {:induction false} NothingComes<E>(s: State<E>, w: seq<Op<E>>)
    requires Closing(s, w) && s.batch == [] && s.ch == []
    ensures Run(s, w).batch == []
    decreases w
  {
    if w == [] {
    } else {
      FirstTurn(s, w);
      NothingComes(Step(s, w[0]), w[1..]);
    }
  }

  /** And it may keep every one of them whatever is on its way: only the timing decides. */
  lemma CloseMayKeepAll<E>(s: State<E>) returns (w: seq<Op<E>>)
    requires Conserved(s) && !s.closed && s.accepted == s.written + s.batch + s.ch
    ensures Closing(Step(s, Op<E>.Close), w) && AllCommit(w) && Run(Step(s, Op<E>.Close), w).written == s.accepted
  {
    w := SomeScheduleKeeps(Step(s, Op<E>.Close));
    ClosingConserves(Step(s, Op<E>.Close), w);
  }

  /** The smallest loss: one event, accepted and then closed upon, never reaches the database. */
  lemma CloseLosesOne<E>(e: E)
    ensures var w := [Enqueue(e), Op<E>.Close, Receive(true), Receive(true)];
            && CanRun(Empty<E>(), w)
            && Run(Empty<E>(), w).exited
            && Run(Empty<E>(), w).accepted == [e]
            && Run(Empty<E>(), w).written == []
  {
    var r: Op<E> := Receive(true);
    var w := [Enqueue(e), Op<E>.Close, r, r];
    var s0 := Empty<E>();
    var s1 := Step(s0, Enqueue(e));
    var s2 := Step(s1, Op<E>.Close);
    var s3 := Step(s2, r);
    var s4 := Step(s3, r);
    assert w[1..] == [Op<E>.Close, r, r] && w[1..][1..] == [r, r] && [r, r][1..] == [r] && [r][1..] == [];
    assert CanRun(s3, [r]) && Run(s3, [r]) == s4;
    assert CanRun(s2, [r, r]) && Run(s2, [r, r]) == s4;
    assert CanRun(s1, w[1..]) && Run(s1, w[1..]) == s4;
  }
}
