/** The audit page of the browser client: the first page, scroll-triggered further pages, and
    the flag that keeps two of them from overlapping. Requests and responses are separate steps,
    and every request reads the filter fields anew. */
module AuditPaging {
  import opened Common
  import opened AuditQuery

  const AUDIT_PAGE: nat := 200

  /** The rows on screen and the module variables, with the offset and the filter of the page in
      flight, and the filter of the reload that arrived last. */
  datatype View = View(shown: seq<Event>, loaded: nat, total: Option<nat>, loading: bool,
                       requested: nat, asked: Query, filter: Query)

  const NO_FILTER: Query := Query("", "", 0, 0, 0, 0)

  function Blank(): View {
    View([], 0, None, false, 0, NO_FILTER, NO_FILTER)
  }

  /** loadAuditData when its response arrives, which the flag does not keep from happening at any
      time: a page from the top replaces what is shown; a failed request changes nothing. */
  function Reload(v: View, q: Query, rows: seq<Event>, ok: bool): View {
    if !ok then v
    else
      var page := Page(rows, AUDIT_PAGE, 0);
      v.(shown := page, loaded := |page|, total := Some(|rows|), filter := q)
  }

  /** loadMoreAudit up to its request. */
  function Trigger(v: View, q: Query): View {
    if v.loading || v.total.None? || v.loaded >= v.total.value then v
    else v.(loading := true, requested := v.loaded, asked := q)
  }

  /** loadMoreAudit from its response on. */
  function Respond(v: View, rows: seq<Event>, ok: bool): View
    requires v.loading
  {
    if !ok then v.(loading := false)
    else
      var page := Page(rows, AUDIT_PAGE, v.requested);
      v.(shown := v.shown + page, loaded := v.loaded + |page|, total := Some(|rows|), loading := false)
  }

  /** The page handlers, with the server behind them. */
  class Client {
    var auditLoaded: nat
    var auditTotal: Option<nat>
    var auditLoading: bool
    var body: seq<Event>
    var offset: nat     // captured by the pending request,
    var pending: Query  // and so is its filter

    ghost var filter: Query

    ghost function Abs(): View
      reads this
    {
      View(body, auditLoaded, auditTotal, auditLoading, offset, pending, filter)
    }

    constructor ()
      ensures Abs() == Blank()
    {
      auditLoaded, auditTotal, auditLoading, body, offset := 0, None, false, [], 0;
      pending, filter := NO_FILTER, NO_FILTER;
    }

    /** One page of the matching rows, and their number. */
    static method FetchAuditPage(cmp: Comparisons, q: Query, table: seq<Event>, offset: nat)
      returns (events: seq<Event>, total: nat)
      ensures events == Page(Matching(cmp, q, table), AUDIT_PAGE, offset)
      ensures total == |Matching(cmp, q, table)|
    {
      var paged := q.(limit := AUDIT_PAGE, offset := offset);
      MatchingIgnoresPaging(cmp, q, paged, table);
      var rows := RunQuery(cmp, paged, table);
      events := rows.value;
      total := RunCount(cmp, paged, table);
    }

    method LoadAuditData(cmp: Comparisons, q: Query, table: seq<Event>, ok: bool)
      modifies this
      ensures Abs() == Reload(old(Abs()), q, Matching(cmp, q, table), ok)
    {
      if !ok {
        return;
      }
      var events, total := FetchAuditPage(cmp, q, table, 0);
      auditLoaded := |events|;
      auditTotal := Some(total);
      body := events;
      filter := q;
    }

    method LoadMoreAudit(q: Query) returns (sent: bool)
      modifies this`auditLoading, this`offset, this`pending
      ensures Abs() == Trigger(old(Abs()), q)
      ensures sent <==> !old(auditLoading) && auditTotal.Some? && auditLoaded < auditTotal.value
      ensures sent ==> auditLoading && offset == auditLoaded && pending == q
    {
      if auditLoading || auditTotal == None || auditLoaded >= auditTotal.value {
        return false;
      }
      auditLoading := true;
      offset, pending := auditLoaded, q;
      sent := true;
    }

    method MoreArrived(cmp: Comparisons, table: seq<Event>, ok: bool)
      requires auditLoading
      modifies this
      ensures Abs() == Respond(old(Abs()), Matching(cmp, old(pending), table), ok)
      ensures !auditLoading && (!ok ==> body == old(body) && auditLoaded == old(auditLoaded) && auditTotal == old(auditTotal))
    {
      if ok {
        var events, total := FetchAuditPage(cmp, pending, table, offset);
        body := body + events;
        auditLoaded := auditLoaded + |events|;
        auditTotal := Some(total);
      }
      auditLoading := false;
    }
  }

  lemma {:induction false} MatchingIgnoresPaging(cmp: Comparisons, q: Query, r: Query, table: seq<Event>)
    requires r == q.(limit := r.limit, offset := r.offset)
    ensures Matching(cmp, r, table) == Matching(cmp, q, table)
  {
    if table == [] {
    } else {
      MatchingIgnoresPaging(cmp, q, r, table[1..]);
    }
  }

  // ---- runs over an unchanged table ----

  datatype Act =
    | Scrolled(q: Query)           // with what the filter fields then hold
    | Arrived(ok: bool)            // the page in flight
    | Reloaded(q: Query, ok: bool) // the response to a reload, and the filter it was sent with

  predicate Enabled(v: View, a: Act) {
    a.Arrived? ==> v.loading
  }

  function Step(cmp: Comparisons, table: seq<Event>, v: View, a: Act): View
    requires Enabled(v, a)
  {
    match a
    case Scrolled(q) => Trigger(v, q)
    case Arrived(ok) => Respond(v, Matching(cmp, v.asked, table), ok)
    case Reloaded(q, ok) => Reload(v, q, Matching(cmp, q, table), ok)
  }

  predicate CanRun(cmp: Comparisons, table: seq<Event>, v: View, w: seq<Act>)
    decreases w
  {
    w != [] ==> Enabled(v, w[0]) && CanRun(cmp, table, Step(cmp, table, v, w[0]), w[1..])
  }

  function Run(cmp: Comparisons, table: seq<Event>, v: View, w: seq<Act>): View
    requires CanRun(cmp, table, v, w)
    decreases w
  {
    if w == [] then v else Run(cmp, table, Step(cmp, table, v, w[0]), w[1..])
  }

  /** What is shown is the beginning of the matching rows, each of them once and in order. */
  predicate Right(v: View, rows: seq<Event>) {
    v.loaded <= |rows| && v.shown == rows[..v.loaded] && v.total == Some(|rows|)
  }

  /** And a page in flight is the next one of them. */
  predicate InStep(cmp: Comparisons, table: seq<Event>, v: View) {
    var rows := Matching(cmp, v.filter, table);
    && Right(v, rows)
    && (v.loading ==> v.requested == v.loaded < |rows| && Matching(cmp, v.asked, table) == rows)
  }

  lemma PageExtends(rows: seq<Event>, loaded: nat)
    requires loaded <= |rows|
    ensures var page := Page(rows, AUDIT_PAGE, loaded);
            && rows[..loaded] + page == rows[..loaded + |page|]
            && |page| == if |rows| - loaded <= AUDIT_PAGE then |rows| - loaded else AUDIT_PAGE
  {
  }

  /** No page is asked for with other rows than those of the last reload, and no reload arrives
      while a page is in flight. */
  predicate Undisturbed(cmp: Comparisons, table: seq<Event>, v: View, a: Act) {
    match a
    case Scrolled(q) => Matching(cmp, q, table) == Matching(cmp, v.filter, table)
    case Arrived(_) => true
    case Reloaded(_, ok) => ok ==> !v.loading
  }

  predicate AllUndisturbed(cmp: Comparisons, table: seq<Event>, v: View, w: seq<Act>)
    requires CanRun(cmp, table, v, w)
    decreases w
  {
    w != [] ==>
      Undisturbed(cmp, table, v, w[0]) && AllUndisturbed(cmp, table, Step(cmp, table, v, w[0]), w[1..])
  }

  lemma StepInStep(cmp: Comparisons, table: seq<Event>, v: View, a: Act)
    requires InStep(cmp, table, v) && Enabled(v, a) && Undisturbed(cmp, table, v, a)
    ensures InStep(cmp, table, Step(cmp, table, v, a))
  {
    match a
    case Scrolled(_) =>
    case Arrived(ok) => PageExtends(Matching(cmp, v.filter, table), v.loaded);
    case Reloaded(q, ok) => PageExtends(Matching(cmp, q, table), 0);
  }

  /** However scrolling, responses, failed requests and undisturbing reloads interleave after a
      first page, no row is shown twice, skipped or out of order. */
  lemma {:induction false} ScrollingKeepsStep(cmp: Comparisons, table: seq<Event>, v: View, w: seq<Act>)
    requires InStep(cmp, table, v) && CanRun(cmp, table, v, w) && AllUndisturbed(cmp, table, v, w)
    ensures InStep(cmp, table, Run(cmp, table, v, w))
    decreases w
  {
    if w == [] {
    } else {
      StepInStep(cmp, table, v, w[0]);
      ScrollingKeepsStep(cmp, table, Step(cmp, table, v, w[0]), w[1..]);
    }
  }

  /** One scroll and its answer. */
  function Round(v: View, q: Query, rows: seq<Event>): View {
    var t := Trigger(v, q);
    if t.loading then Respond(t, rows, true) else t
  }

  function Rounds(v: View, q: Query, rows: seq<Event>, k: nat): View {
    if k == 0 then v else Round(Rounds(v, q, rows, k - 1), q, rows)
  }

  /** Each answered scroll shows up to one page more. */
  lemma {:induction false} RoundsShow(v: View, q: Query, rows: seq<Event>, k: nat)
    requires !v.loading
    ensures var r := Rounds(Reload(v, q, rows, true), q, rows, k);
            && Right(r, rows) && !r.loading && r.filter == q
            && r.loaded == if |rows| <= AUDIT_PAGE * (k + 1) then |rows| else AUDIT_PAGE * (k + 1)
  {
    if k == 0 {
      PageExtends(rows, 0);
    } else {
      RoundsShow(v, q, rows, k - 1);
      PageExtends(rows, Rounds(Reload(v, q, rows, true), q, rows, k - 1).loaded);
    }
  }

  /** The page loop ends: after enough answered scrolls every matching row is shown exactly once,
      as many as Count reports, and a further scroll sends nothing. */
  lemma PageLoopShowsAll(cmp: Comparisons, q: Query, table: seq<Event>, v: View, k: nat)
    requires !v.loading && |Matching(cmp, q, table)| <= AUDIT_PAGE * (k + 1)
    ensures var rows := Matching(cmp, q, table);
            var r := Rounds(Reload(v, q, rows, true), q, rows, k);
            r.shown == rows && r.loaded == |rows| && r.total == Some(|rows|) && Trigger(r, q) == r
  {
    RoundsShow(v, q, Matching(cmp, q, table), k);
  }

  /** A page that fails is not lost: the flag is cleared, and the next scroll asks for it again. */
  lemma FailedPageIsAskedAgain(v: View, q: Query, rows: seq<Event>)
    requires !v.loading && Trigger(v, q).loading
    ensures Respond(Trigger(v, q), rows, false).shown == v.shown
    ensures Trigger(Respond(Trigger(v, q), rows, false), q) == Trigger(v, q)
  {
  }

  // ---- what disturbs the list ----

  /** An answer keeps a right list right exactly when it fails, or brings what comes next in the
      list and counts as many rows; `asked` are the rows of the filter it was asked with. */
  lemma AnswerKeepsExactly(v: View, rows: seq<Event>, asked: seq<Event>, ok: bool)
    requires v.loading && Right(v, rows)
    ensures Right(Respond(v, asked, ok), rows) <==>
            !ok || (|asked| == |rows| && Page(asked, AUDIT_PAGE, v.requested) <= rows[v.loaded..])
  {
    var page, rest := Page(asked, AUDIT_PAGE, v.requested), rows[v.loaded..];
    assert rows == rows[..v.loaded] + rest;
    if ok && page <= rest {
      assert rows[..v.loaded + |page|] == v.shown + page;
    }
    if ok && v.loaded + |page| <= |rows| && v.shown + page == rows[..v.loaded + |page|] {
      assert rest[..|page|] == rows[..v.loaded + |page|][v.loaded..] == page;
    }
  }

  /** A further page asked for after the filter fields were edited, and not submitted, keeps the
      list right exactly when it fails or the edit changes neither the count nor that page. */
  lemma EditedFieldsKeepExactly(v: View, q: Query, rows: seq<Event>, asked: seq<Event>, ok: bool)
    requires Right(v, rows) && !v.loading && Trigger(v, q).loading
    ensures Right(Respond(Trigger(v, q), asked, ok), rows) <==>
            !ok || (|asked| == |rows| && Page(asked, AUDIT_PAGE, v.loaded) == Page(rows, AUDIT_PAGE, v.loaded))
  {
    AnswerKeepsExactly(Trigger(v, q), rows, asked, ok);
    PageExtends(rows, v.loaded);
    if |asked| == |rows| {
      PageExtends(asked, v.loaded);
      var page, rest := Page(rows, AUDIT_PAGE, v.loaded), rows[v.loaded..];
      assert page == rest[..|page|];
    }
  }

  /** A reload, and then the answer to the page that was in flight, if any. */
  function Overtaken(v: View, q: Query, asked: seq<Event>, rows: seq<Event>, ok: bool): View {
    var r := Reload(v, q, rows, true);
    if v.loading then Respond(r, asked, ok) else r
  }

  /** A page of the old list overtaken by a reload, with the same filter or another, leaves the new
      list right exactly when it does not arrive, or the new list is as long and more than a page,
      and goes on after its first page as the old one does where the page was asked for. */
  lemma ReloadSpoilsExactly(v: View, q: Query, asked: seq<Event>, rows: seq<Event>, ok: bool)
    requires Right(v, asked) && (v.loading ==> v.requested == v.loaded < |asked|)
    ensures Right(Overtaken(v, q, asked, rows, ok), rows) <==>
            !(v.loading && ok) ||
            (|asked| == |rows| > AUDIT_PAGE && Page(asked, AUDIT_PAGE, v.loaded) <= rows[AUDIT_PAGE..])
  {
    var r := Reload(v, q, rows, true);
    PageExtends(rows, 0);
    PageExtends(asked, v.loaded);
    if v.loading {
      AnswerKeepsExactly(r, rows, asked, ok);
    }
  }

  predicate Distinct(rows: seq<Event>) {
    forall i, j :: 0 <= i < j < |rows| ==> rows[i] != rows[j]
  }

  /** With the same filter the page in flight spoils the list exactly when it arrives and is not
      the second one. (Rows carry an identity in the table; without it equal rows could pass for
      each other.) */
  lemma SameFilterSpoilsExactly(v: View, q: Query, rows: seq<Event>, ok: bool)
    requires Right(v, rows) && (v.loading ==> v.requested == v.loaded < |rows|) && Distinct(rows)
    ensures Right(Overtaken(v, q, rows, rows, ok), rows) <==> !(v.loading && ok) || v.loaded == AUDIT_PAGE
  {
    ReloadSpoilsExactly(v, q, rows, rows, ok);
    PageExtends(rows, v.loaded);
    if v.loading && |rows| > AUDIT_PAGE {
      var page, rest := Page(rows, AUDIT_PAGE, v.loaded), rows[AUDIT_PAGE..];
      assert page[0] == rows[v.loaded] && rest[0] == rows[AUDIT_PAGE];
      if v.loaded == AUDIT_PAGE {
        assert page == rest[..|page|];
      } else if page <= rest {
        assert page[0] == rest[0];
      }
    }
  }

  /** The flag does not guard a reload: one that arrives while a further page is in flight leaves
      that page appended to the wrong place, and the rows in between unshown. */
  lemma ReloadInFlightSkips(q: Query, rows: seq<Event>)
    requires |rows| == 600 && rows[200] != rows[400]
    ensures var v := Trigger(Rounds(Reload(Blank(), q, rows, true), q, rows, 1), q);
            v.loading && !Right(Overtaken(v, q, rows, rows, true), rows)
  {
    RoundsShow(Blank(), q, rows, 1);
    var v := Trigger(Rounds(Reload(Blank(), q, rows, true), q, rows, 1), q);
    ReloadSpoilsExactly(v, q, rows, rows, true);
    assert Page(rows, AUDIT_PAGE, 400)[0] == rows[400] && rows[AUDIT_PAGE..][0] == rows[200];
  }

  lemma RunStep(cmp: Comparisons, table: seq<Event>, v: View, a: Act, w: seq<Act>)
    requires Enabled(v, a) && CanRun(cmp, table, Step(cmp, table, v, a), w)
    ensures CanRun(cmp, table, v, [a] + w) && Run(cmp, table, v, [a] + w) == Run(cmp, table, Step(cmp, table, v, a), w)
  {
    assert ([a] + w)[1..] == w;
  }

  /** Submitting another filter while the second page is in flight: two filters with 400 rows each
      that differ after the first page leave rows of the old one in the list of the new one. */
  lemma FilterChangeSpoils(cmp: Comparisons, table: seq<Event>, q1: Query, q2: Query)
    requires |Matching(cmp, q1, table)| == |Matching(cmp, q2, table)| == 400
    requires Matching(cmp, q1, table)[200] != Matching(cmp, q2, table)[200]
    ensures var w := [Reloaded(q1, true), Scrolled(q1), Reloaded(q2, true), Arrived(true)];
            && CanRun(cmp, table, Blank(), w)
            && Run(cmp, table, Blank(), w).filter == q2
            && !Right(Run(cmp, table, Blank(), w), Matching(cmp, q2, table))
  {
    var old_, new_ := Matching(cmp, q1, table), Matching(cmp, q2, table);
    var w := [Reloaded(q1, true), Scrolled(q1), Reloaded(q2, true), Arrived(true)];
    var v1 := Step(cmp, table, Blank(), w[0]);
    var v2 := Step(cmp, table, v1, w[1]);
    var v3 := Step(cmp, table, v2, w[2]);
    var v4 := Step(cmp, table, v3, w[3]);
    PageExtends(old_, 0);
    ReloadSpoilsExactly(v2, q2, old_, new_, true);
    assert Page(old_, AUDIT_PAGE, 200)[0] == old_[200] && new_[AUDIT_PAGE..][0] == new_[200];
    RunStep(cmp, table, v3, w[3], []);
    RunStep(cmp, table, v2, w[2], [w[3]] + []);
    RunStep(cmp, table, v1, w[1], [w[2]] + ([w[3]] + []));
    RunStep(cmp, table, Blank(), w[0], [w[1]] + ([w[2]] + ([w[3]] + [])));
    assert w == [w[0]] + ([w[1]] + ([w[2]] + ([w[3]] + [])));
    assert Run(cmp, table, v4, []) == v4;
  }
}
