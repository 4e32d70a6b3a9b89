/** Download slots: any number of handlers share a counting semaphore, the counter of active
    downloads and the audit log. Each handler's steps may interleave with everybody else's. */
module Downloads {

  datatype Phase =
    | Waiting               // the URL was accepted, no slot yet
    | Holding               // a slot is held
    | Streaming             // counted as active
    | Streamed(ok: bool)    // the stream has ended
    | Logged                // the one audit event is written, the deferred release is due
    | Finished(held: bool)  // returned, after holding a slot or without one

  /** A download event, as the handler that wrote it and its outcome. */
  datatype Entry = Entry(id: nat, ok: bool)

  datatype Sys = Sys(
    capacity: nat, sem: nat, active: int,
    handlers: map<nat, Phase>, log: seq<Entry>,
    acquired: nat, released: nat)

  function Initial(capacity: nat): Sys {
    Sys(capacity, 0, 0, map[], [], 0, 0)
  }

  datatype Op =
    | Arrive(id: nat, urlOk: bool)
    | Acquire(id: nat)
    | TimeOut(id: nat)
    | Fail(id: nat)            // unknown provider, failed resolution or a file too large
    | Start(id: nat)           // StartDownload
    | End(id: nat, ok: bool)   // EndDownload
    | Record(id: nat)          // logDownload after the stream
    | Release(id: nat)         // the deferred receive

  predicate At(y: Sys, id: nat, p: Phase) {
    id in y.handlers && y.handlers[id] == p
  }

  predicate Enabled(y: Sys, op: Op) {
    match op
    case Arrive(id, _) => id !in y.handlers
    case Acquire(id) => At(y, id, Waiting) && y.sem < y.capacity
    case TimeOut(id) => At(y, id, Waiting)
    case Fail(id) => At(y, id, Holding)
    case Start(id) => At(y, id, Holding)
    case End(id, _) => At(y, id, Streaming)
    case Record(id) => id in y.handlers && y.handlers[id].Streamed?
    case Release(id) => At(y, id, Logged) && y.sem > 0
  }

  function Move(y: Sys, id: nat, p: Phase): Sys {
    y.(handlers := y.handlers[id := p])
  }

  /** A handler with its one event written, and all else as before. */
  function Noted(y: Sys, id: nat, ok: bool): Sys {
    Move(y, id, Logged).(log := y.log + [Entry(id, ok)])
  }

  function Step(y: Sys, op: Op): Sys
    requires Enabled(y, op)
  {
    match op
    case Arrive(id, urlOk) => Move(y, id, if urlOk then Waiting else Finished(false))
    case Acquire(id) => Move(y, id, Holding).(sem := y.sem + 1, acquired := y.acquired + 1)
    case TimeOut(id) => Move(y, id, Finished(false))
    case Fail(id) => Noted(y, id, false)
    case Start(id) => Move(y, id, Streaming).(active := y.active + 1)
    case End(id, ok) => Move(y, id, Streamed(ok)).(active := y.active - 1)
    case Record(id) => Noted(y, id, y.handlers[id].ok)
    case Release(id) => Move(y, id, Finished(true)).(sem := y.sem - 1, released := y.released + 1)
  }

  predicate CanRun(y: Sys, w: seq<Op>)
    decreases w
  {
    w != [] ==> Enabled(y, w[0]) && CanRun(Step(y, w[0]), w[1..])
  }

  function Run(y: Sys, w: seq<Op>): Sys
    requires CanRun(y, w)
    decreases w
  {
    if w == [] then y else Run(Step(y, w[0]), w[1..])
  }

  lemma RunOne(y: Sys, op: Op)
    requires Enabled(y, op)
    ensures CanRun(y, [op]) && Run(y, [op]) == Step(y, op)
  {
    assert [op][1..] == [];
    assert CanRun(Step(y, op), []);
  }

  lemma RunCons(y: Sys, op: Op, w: seq<Op>)
    requires Enabled(y, op) && CanRun(Step(y, op), w)
    ensures CanRun(y, [op] + w) && Run(y, [op] + w) == Run(Step(y, op), w)
  {
    assert ([op] + w)[1..] == w;
  }

  // ---- one handler from start to end ----

  /** How a request goes: without a slot, or with one and failing before the stream, or streaming. */
  datatype Course = TurnedAway(urlOk: bool) | Unstreamed | Streams(ok: bool)

  /** Its steps. */
  function Ops(id: nat, c: Course): seq<Op> {
    match c
    case TurnedAway(urlOk) => [Arrive(id, urlOk)] + if urlOk then [TimeOut(id)] else []
    case _ => [Arrive(id, true)] + ([Acquire(id)] + SlotOps(id, c))
  }

  function SlotOps(id: nat, c: Course): seq<Op>
    requires !c.TurnedAway?
  {
    if c.Unstreamed? then [Fail(id)] + [Release(id)]
    else [Start(id)] + ([End(id, c.ok)] + ([Record(id)] + [Release(id)]))
  }

  /** And what is left of it: nothing without a slot, and one event with one. */
  function Handled(y: Sys, id: nat, c: Course): Sys {
    match c
    case TurnedAway(_) => Move(y, id, Finished(false))
    case _ =>
      Move(y, id, Finished(true)).(log := y.log + [Entry(id, c == Streams(true))],
                                   acquired := y.acquired + 1, released := y.released + 1)
  }

  lemma MoveTwice(y: Sys, id: nat, p: Phase, q: Phase)
    ensures Move(Move(y, id, p), id, q) == Move(y, id, q)
  {
    assert y.handlers[id := p][id := q] == y.handlers[id := q];
  }

  /** The three steps of a stream leave the active count as it was. */
  lemma StreamNotes(y: Sys, id: nat, ok: bool)
    requires At(y, id, Holding)
    ensures var y2 := Step(Step(y, Start(id)), End(id, ok));
            y2 == Move(y, id, Streamed(ok)) && Step(y2, Record(id)) == Noted(y, id, ok)
  {
    MoveTwice(y, id, Streaming, Streamed(ok));
    MoveTwice(y, id, Streamed(ok), Logged);
  }

  lemma SlotIsRun(y: Sys, id: nat, c: Course)
    requires At(y, id, Holding) && y.sem > 0 && !c.TurnedAway?
    ensures CanRun(y, SlotOps(id, c)) && Run(y, SlotOps(id, c)) == Step(Noted(y, id, c == Streams(true)), Release(id))
  {
    if c.Unstreamed? {
      RunOne(Step(y, Fail(id)), Release(id));
      RunCons(y, Fail(id), [Release(id)]);
    } else {
      var y1 := Step(y, Start(id));
      var y2 := Step(y1, End(id, c.ok));
      StreamNotes(y, id, c.ok);
      RunOne(Step(y2, Record(id)), Release(id));
      RunCons(y2, Record(id), [Release(id)]);
      RunCons(y1, End(id, c.ok), [Record(id)] + [Release(id)]);
      RunCons(y, Start(id), [End(id, c.ok)] + ([Record(id)] + [Release(id)]));
    }
  }

  /** A handler that just got its slot. */
  function Seated(y: Sys, id: nat): Sys {
    Move(y, id, Holding).(sem := y.sem + 1, acquired := y.acquired + 1)
  }

  lemma ArriveSeats(y: Sys, id: nat)
    requires id !in y.handlers && y.sem < y.capacity
    ensures Step(Step(y, Arrive(id, true)), Acquire(id)) == Seated(y, id)
  {
    MoveTwice(y, id, Waiting, Holding);
  }

  lemma SeatedServes(y: Sys, id: nat, c: Course)
    requires !c.TurnedAway?
    ensures Step(Noted(Seated(y, id), id, c == Streams(true)), Release(id)) == Handled(y, id, c)
  {
    MoveTwice(y, id, Holding, Logged);
    MoveTwice(y, id, Logged, Finished(true));
  }

  lemma TurnedAwayIsRun(y: Sys, id: nat, urlOk: bool)
    requires id !in y.handlers
    ensures CanRun(y, Ops(id, TurnedAway(urlOk))) && Run(y, Ops(id, TurnedAway(urlOk))) == Handled(y, id, TurnedAway(urlOk))
  {
    if urlOk {
      RunOne(Step(y, Arrive(id, true)), TimeOut(id));
      RunCons(y, Arrive(id, true), [TimeOut(id)]);
      MoveTwice(y, id, Waiting, Finished(false));
    } else {
      RunOne(y, Arrive(id, false));
      assert [Arrive(id, false)] + [] == [Arrive(id, false)];
    }
  }

  /** Every course is a run of the protocol. */
  lemma HandledIsRun(y: Sys, id: nat, c: Course)
    requires id !in y.handlers && (!c.TurnedAway? ==> y.sem < y.capacity)
    ensures CanRun(y, Ops(id, c)) && Run(y, Ops(id, c)) == Handled(y, id, c)
  {
    if c.TurnedAway? {
      TurnedAwayIsRun(y, id, c.urlOk);
    } else {
      ArriveSeats(y, id);
      SlotIsRun(Seated(y, id), id, c);
      SeatedServes(y, id, c);
      RunCons(Step(y, Arrive(id, true)), Acquire(id), SlotOps(id, c));
      RunCons(y, Arrive(id, true), [Acquire(id)] + SlotOps(id, c));
    }
  }

  // ---- who is where ----

  predicate HoldsSlot(p: Phase) {
    p == Holding || p == Streaming || p.Streamed? || p == Logged
  }

  predicate HasLogged(p: Phase) {
    p == Logged || p == Finished(true)
  }

  function Holders(y: Sys): set<nat> {
    set id | id in y.handlers && HoldsSlot(y.handlers[id])
  }

  function Streamers(y: Sys): set<nat> {
    set id | id in y.handlers && y.handlers[id] == Streaming
  }

  /** The handlers that held a slot and have returned. */
  function Served(y: Sys): set<nat> {
    set id | id in y.handlers && y.handlers[id] == Finished(true)
  }

  predicate Wrote(log: seq<Entry>, id: nat) {
    exists i :: 0 <= i < |log| && log[i].id == id
  }

  /** Each handler past logging has exactly one event, and nobody else has any. */
  ghost predicate LogConsistent(y: Sys) {
    && (forall i, j :: 0 <= i < j < |y.log| ==> y.log[i].id != y.log[j].id)
    && (forall i :: 0 <= i < |y.log| ==> y.log[i].id in y.handlers && HasLogged(y.handlers[y.log[i].id]))
    && (forall id :: id in y.handlers && HasLogged(y.handlers[id]) ==> Wrote(y.log, id))
  }

  ghost predicate Consistent(y: Sys) {
    && |Streamers(y)| == y.active
    && |Holders(y)| == y.sem <= y.capacity
    && |Served(y)| == y.released
    && y.acquired == y.sem + y.released
    && LogConsistent(y)
  }

  /** A handler that has not logged writes its event and is then counted as having logged. */
  lemma LogGrows(y: Sys, id: nat, ok: bool)
    requires LogConsistent(y) && id in y.handlers && !HasLogged(y.handlers[id])
    ensures LogConsistent(Noted(y, id, ok))
  {
    var y' := Noted(y, id, ok);
    assert y'.log[|y.log|].id == id;
    forall other | other in y'.handlers && HasLogged(y'.handlers[other])
      ensures Wrote(y'.log, other)
    {
      if other != id {
        var i :| 0 <= i < |y.log| && y.log[i].id == other;
        assert y'.log[i].id == other;
      }
    }
  }

  lemma LogStays(y: Sys, y': Sys, id: nat, p: Phase)
    requires LogConsistent(y) && y'.handlers == y.handlers[id := p] && y'.log == y.log
    requires HasLogged(p) <==> id in y.handlers && HasLogged(y.handlers[id])
    ensures LogConsistent(y')
  {
  }

  lemma StepLog(y: Sys, op: Op)
    requires LogConsistent(y) && Enabled(y, op)
    ensures LogConsistent(Step(y, op))
  {
    var y' := Step(y, op);
    match op
    case Fail(id) => LogGrows(y, id, false);
    case Record(id) => LogGrows(y, id, y.handlers[id].ok);
    case _ => LogStays(y, y', op.id, y'.handlers[op.id]);
  }

  function Gain(b: bool): int {
    if b then 1 else 0
  }

  /** A head count after one handler has moved. */
  lemma OneMoves(before: set<nat>, after: set<nat>, id: nat)
    requires after - {id} == before - {id}
    ensures |after| == |before| + Gain(id in after) - Gain(id in before)
  {
    if id in before {
      assert before == (before - {id}) + {id};
    }
    if id in after {
      assert after == (after - {id}) + {id};
    }
  }

  lemma MoveCounts(y: Sys, id: nat, p: Phase)
    ensures var y' := Move(y, id, p);
            && |Streamers(y')| == |Streamers(y)| + Gain(p == Streaming) - Gain(At(y, id, Streaming))
            && |Holders(y')| == |Holders(y)| + Gain(HoldsSlot(p)) - Gain(id in y.handlers && HoldsSlot(y.handlers[id]))
            && |Served(y')| == |Served(y)| + Gain(p == Finished(true)) - Gain(At(y, id, Finished(true)))
  {
    var y' := Move(y, id, p);
    assert Streamers(y') - {id} == Streamers(y) - {id};
    OneMoves(Streamers(y), Streamers(y'), id);
    assert Holders(y') - {id} == Holders(y) - {id};
    OneMoves(Holders(y), Holders(y'), id);
    assert Served(y') - {id} == Served(y) - {id};
    OneMoves(Served(y), Served(y'), id);
  }

  /** Only the four bracketing steps change a head count, each by one. */
  lemma StepCounts(y: Sys, op: Op)
    requires Enabled(y, op)
    ensures var y' := Step(y, op);
            && |Streamers(y')| == |Streamers(y)| + Gain(op.Start?) - Gain(op.End?)
            && |Holders(y')| == |Holders(y)| + Gain(op.Acquire?) - Gain(op.Release?)
            && |Served(y')| == |Served(y)| + Gain(op.Release?)
  {
    StepSets(y, op);
    MoveCounts(y, op.id, Step(y, op).handlers[op.id]);
  }

  lemma StepConsistent(y: Sys, op: Op)
    requires Consistent(y) && Enabled(y, op)
    ensures Consistent(Step(y, op))
  {
    StepLog(y, op);
    StepCounts(y, op);
  }

  lemma StepSets(y: Sys, op: Op)
    requires Enabled(y, op)
    ensures var y' := Step(y, op);
            var z := Move(y, op.id, y'.handlers[op.id]);
            Streamers(y') == Streamers(z) && Holders(y') == Holders(z) && Served(y') == Served(z)
  {
  }

  /** Over every interleaving of handlers: the streaming ones are the active count, which is at
      most the held slots, which are the semaphore, which is within the capacity; every slot
      acquired is held or was released once; and the download events are those of the handlers
      that are done with their slot or about to release it, one each. */
  lemma {:induction false} RunConsistent(y: Sys, w: seq<Op>)
    requires Consistent(y) && CanRun(y, w)
    ensures Consistent(Run(y, w))
    ensures 0 <= Run(y, w).active <= Run(y, w).sem
    decreases w
  {
    if w == [] {
      assert Streamers(y) <= Holders(y);
      SubsetSize(Streamers(y), Holders(y));
    } else {
      StepConsistent(y, w[0]);
      RunConsistent(Step(y, w[0]), w[1..]);
    }
  }

  lemma {:induction false} SubsetSize(a: set<nat>, b: set<nat>)
    requires a <= b
    ensures |a| <= |b|
  {
    if a == {} {
    } else {
      var x :| x in a;
      SubsetSize(a - {x}, b - {x});
    }
  }

  /** There are as many events as handlers that wrote one. */
  lemma {:induction false} LogSize(log: seq<Entry>, ids: set<nat>)
    requires forall i, j :: 0 <= i < j < |log| ==> log[i].id != log[j].id
    requires forall id :: id in ids <==> Wrote(log, id)
    ensures |ids| == |log|
  {
    if log == [] {
      assert ids == {};
    } else {
      var front, last := log[..|log| - 1], log[|log| - 1].id;
      assert Wrote(log, last);
      forall id
        ensures id in ids - {last} <==> Wrote(front, id)
      {
        if Wrote(front, id) {
          var i :| 0 <= i < |front| && front[i].id == id;
          assert log[i].id == id;
        }
      }
      LogSize(front, ids - {last});
    }
  }

  /** Every handler has returned. */
  predicate Quiescent(y: Sys) {
    forall id :: id in y.handlers ==> y.handlers[id].Finished?
  }

  /** When every handler has returned, the semaphore and the active count are back at zero, every
      slot was released, and the events are exactly one for each handler that held a slot. */
  lemma QuiescenceRestores(capacity: nat, w: seq<Op>)
    requires CanRun(Initial(capacity), w) && Quiescent(Run(Initial(capacity), w))
    ensures var y := Run(Initial(capacity), w);
            && y.sem == 0 && y.active == 0
            && y.acquired == y.released == |y.log| == |Served(y)|
            && (forall id :: id in Served(y) <==> Wrote(y.log, id))
  {
    var y0, y := Initial(capacity), Run(Initial(capacity), w);
    assert Streamers(y0) == {} && Holders(y0) == {} && Served(y0) == {};
    RunConsistent(y0, w);
    assert Holders(y) == {} && Streamers(y) == {};
    LogSize(y.log, Served(y));
  }

  /** No handler is ever stuck: one that has not returned has an enabled step, and the deferred
      release never blocks. */
  lemma NeverStuck(capacity: nat, w: seq<Op>, id: nat)
    requires CanRun(Initial(capacity), w) && id in Run(Initial(capacity), w).handlers
    ensures var y := Run(Initial(capacity), w);
            && (!y.handlers[id].Finished? ==> exists op: Op :: op.id == id && Enabled(y, op))
            && (y.handlers[id] == Logged ==> Enabled(y, Release(id)))
  {
    var y0, y := Initial(capacity), Run(Initial(capacity), w);
    assert Streamers(y0) == {} && Holders(y0) == {} && Served(y0) == {};
    RunConsistent(y0, w);
    match y.handlers[id]
    case Waiting => assert Enabled(y, TimeOut(id));
    case Holding => assert Enabled(y, Fail(id));
    case Streaming => assert Enabled(y, End(id, true));
    case Streamed(_) => assert Enabled(y, Record(id));
    case Logged =>
      assert id in Holders(y);
      assert Enabled(y, Release(id));
    case Finished(_) =>
  }
}
