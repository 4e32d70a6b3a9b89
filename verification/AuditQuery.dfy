/** The audit store's read path: the WHERE fragment with its positional arguments, the full
    SELECT, and what a database makes of them. SQL text is modelled as tokens. */
module AuditQuery {
  import opened Common

  datatype Event = Event(
    time: int, action: string, user: string, ip: string, detail: string, url: string,
    provider: string, filename: string, fileSize: int, resolvedURL: string,
    bytesTransferred: int, durationMS: int, sha256: string, clientUA: string)

  datatype Query = Query(user: string, action: string, limit: int, offset: int, fromMs: int, toMs: int)

  datatype Token =
    | True_ | And                       // 1=1, AND
    | ActionCol | UserCol | TimeCol     // column names
    | Eq | Like | Ge | Le               // =, LIKE, >=, <=
    | Mark                              // ?
    | NewestFirst | Limit | Offset      // ORDER BY time DESC, LIMIT, OFFSET

  datatype Arg = Text(text: string) | Instant(ms: int) | Number(n: int)

  /** Bounds are formatted to whole seconds before they are bound. */
  function WholeSecond(ms: int): (s: int)
    ensures s <= ms < s + 1000 && s % 1000 == 0
  {
    ms / 1000 * 1000
  }

  // ---- the builder ----

  /** One optional condition: its column, its comparison and the argument it binds. */
  datatype Clause = Clause(col: Token, op: Token, arg: Arg)

  function Optional(c: bool, clause: Clause): seq<Clause> {
    if c then [clause] else []
  }

  /** The conditions a query asks for, in the order they are appended. */
  function Clauses(q: Query): seq<Clause> {
    Optional(q.action != "", Clause(ActionCol, Eq, Text(q.action))) +
    Optional(q.user != "", Clause(UserCol, Like, Text("%" + q.user + "%"))) +
    Optional(q.fromMs > 0, Clause(TimeCol, Ge, Instant(WholeSecond(q.fromMs)))) +
    Optional(q.toMs > 0, Clause(TimeCol, Le, Instant(WholeSecond(q.toMs))))
  }

  /** The text of one clause. */
  function Condition(c: Clause): seq<Token> {
    [And, c.col, c.op, Mark]
  }

  function Tokens(cs: seq<Clause>): seq<Token> {
    if cs == [] then [True_]
    else Tokens(cs[..|cs| - 1]) + Condition(cs[|cs| - 1])
  }

  function Args(cs: seq<Clause>): (args: seq<Arg>)
    ensures |args| == |cs|
  {
    seq(|cs|, i requires 0 <= i < |cs| => cs[i].arg)
  }

  /** Appends one condition and its argument, if it is asked for. */
  method AppendIf(b: bool, c: Clause, where: seq<Token>, args: seq<Arg>, ghost cs: seq<Clause>)
    returns (where': seq<Token>, args': seq<Arg>)
    requires where == Tokens(cs) && args == Args(cs)
    ensures where' == Tokens(cs + Optional(b, c)) && args' == Args(cs + Optional(b, c))
  {
    where', args' := where, args;
    if b {
      where' := where' + [And, c.col, c.op, Mark];
      args' := args' + [c.arg];
      assert (cs + [c])[..|cs|] == cs;
    } else {
      assert cs + [] == cs;
    }
  }

  method FilterClause(q: Query) returns (where: seq<Token>, args: seq<Arg>)
    ensures where == Tokens(Clauses(q)) && args == Args(Clauses(q))
  {
    where, args := [True_], [];
    var action := Clause(ActionCol, Eq, Text(q.action));
    var user := Clause(UserCol, Like, Text("%" + q.user + "%"));
    var from := Clause(TimeCol, Ge, Instant(WholeSecond(q.fromMs)));
    var to_ := Clause(TimeCol, Le, Instant(WholeSecond(q.toMs)));
    ghost var cs := [];
    assert cs + Optional(q.action != "", action) == Optional(q.action != "", action);
    where, args := AppendIf(q.action != "", action, where, args, cs);
    cs := cs + Optional(q.action != "", action);
    where, args := AppendIf(q.user != "", user, where, args, cs);
    cs := cs + Optional(q.user != "", user);
    where, args := AppendIf(q.fromMs > 0, from, where, args, cs);
    cs := cs + Optional(q.fromMs > 0, from);
    where, args := AppendIf(q.toMs > 0, to_, where, args, cs);
  }

  // ---- the database ----

  /** What the database makes of two texts. Times are stored and bound as text, in formats that
      differ and with whatever zone the server has, so nothing is assumed about how they compare. */
  datatype Comparisons = Comparisons(
    like: (string, string) -> bool,    // pattern, text
    notBefore: (int, int) -> bool,     // a stored time, a bound
    notAfter: (int, int) -> bool,      // a stored time, a bound
    precedes: (int, int) -> bool)      // two stored times, in descending order

  /** One comparison of a column with a bound argument; ill-typed comparisons are errors. */
  function Compare(cmp: Comparisons, col: Token, op: Token, arg: Arg, e: Event): Option<bool> {
    match (col, op, arg)
    case (ActionCol, Eq, Text(t)) => Some(e.action == t)
    case (UserCol, Like, Text(t)) => Some(cmp.like(t, e.user))
    case (TimeCol, Ge, Instant(ms)) => Some(cmp.notBefore(e.time, ms))
    case (TimeCol, Le, Instant(ms)) => Some(cmp.notAfter(e.time, ms))
    case _ => None
  }

  datatype Parsed = Parsed(holds: bool, toks: seq<Token>, args: seq<Arg>)

  /** One condition at the head of the text, taking its argument from the head of the arguments. */
  function EvalAtom(cmp: Comparisons, toks: seq<Token>, args: seq<Arg>, e: Event): Option<Parsed> {
    if |toks| >= 1 && toks[0] == True_ then Some(Parsed(true, toks[1..], args))
    else if |toks| >= 3 && toks[2] == Mark && args != [] then
      match Compare(cmp, toks[0], toks[1], args[0], e)
      case None => None
      case Some(b) => Some(Parsed(b, toks[3..], args[1..]))
    else None
  }

  /** A conjunction: one condition, and another after each AND. */
  function EvalWhere(cmp: Comparisons, toks: seq<Token>, args: seq<Arg>, e: Event): Option<Parsed> {
    match EvalAtom(cmp, toks, args, e)
    case None => None
    case Some(p) => EvalMore(cmp, p, e)
  }

  function EvalMore(cmp: Comparisons, p: Parsed, e: Event): Option<Parsed>
    decreases |p.toks|
  {
    if p.toks == [] || p.toks[0] != And then Some(p) else
    match EvalAtom(cmp, p.toks[1..], p.args, e)
    case None => None
    case Some(r) => EvalMore(cmp, r.(holds := p.holds && r.holds), e)
  }

  /** SELECT: the conjunction on every row, then the order, the limit and the offset. */
  function Execute(cmp: Comparisons, toks: seq<Token>, args: seq<Arg>, table: seq<Event>): Option<seq<Event>> {
    if table == [] then Some([]) else
    match Selected(cmp, toks, args, table)
    case None => None
    case Some(rows) =>
      match EvalWhere(cmp, toks, args, table[0])
      case None => None
      case Some(p) =>
        if |p.toks| == 5 && p.toks == [NewestFirst, Limit, Mark, Offset, Mark] &&
           |p.args| == 2 && p.args[0].Number? && p.args[1].Number?
        then Some(Page(rows, p.args[0].n, p.args[1].n)) else None
  }

  /** The rows on which the conjunction holds, in table order. */
  function Selected(cmp: Comparisons, toks: seq<Token>, args: seq<Arg>, table: seq<Event>): Option<seq<Event>> {
    if table == [] then Some([]) else
    match (EvalWhere(cmp, toks, args, table[0]), Selected(cmp, toks, args, table[1..]))
    case (Some(p), Some(rows)) => Some(if p.holds then [table[0]] + rows else rows)
    case _ => None
  }

  /** LIMIT and OFFSET. */
  function Page<T>(rows: seq<T>, limit: int, offset: int): seq<T> {
    if offset < 0 || limit < 0 || offset >= |rows| then []
    else if offset + limit >= |rows| then rows[offset..]
    else rows[offset..offset + limit]
  }

  /** A page is the rows from the offset on, as many as the limit allows. */
  lemma PageExactly<T>(rows: seq<T>, limit: nat, offset: nat)
    ensures var page := Page(rows, limit, offset);
            && |page| == (if |rows| <= offset then 0 else if |rows| - offset <= limit then |rows| - offset else limit)
            && forall i :: 0 <= i < |page| ==> page[i] == rows[offset + i]
  {
  }

  // ---- what the query asks for, said directly ----

  predicate Matches(cmp: Comparisons, q: Query, e: Event) {
    && (q.action != "" ==> e.action == q.action)
    && (q.user != "" ==> cmp.like("%" + q.user + "%", e.user))
    && (q.fromMs > 0 ==> cmp.notBefore(e.time, WholeSecond(q.fromMs)))
    && (q.toMs > 0 ==> cmp.notAfter(e.time, WholeSecond(q.toMs)))
  }

  /** Each filter alone, all of them together, and none. */
  lemma FiltersMean(cmp: Comparisons, action: string, user: string, from: int, to_: int, e: Event)
    requires action != "" && user != "" && from > 0 && to_ > 0
    ensures Matches(cmp, Query("", "", 0, 0, 0, 0), e)
    ensures Matches(cmp, Query("", action, 0, 0, 0, 0), e) <==> e.action == action
    ensures Matches(cmp, Query(user, "", 0, 0, 0, 0), e) <==> cmp.like("%" + user + "%", e.user)
    ensures Matches(cmp, Query("", "", 0, 0, from, 0), e) <==> cmp.notBefore(e.time, from - from % 1000)
    ensures Matches(cmp, Query("", "", 0, 0, 0, to_), e) <==> cmp.notAfter(e.time, to_ - to_ % 1000)
    ensures Matches(cmp, Query(user, action, 0, 0, from, to_), e) <==>
            && Matches(cmp, Query("", action, 0, 0, 0, 0), e) && Matches(cmp, Query(user, "", 0, 0, 0, 0), e)
            && Matches(cmp, Query("", "", 0, 0, from, 0), e) && Matches(cmp, Query("", "", 0, 0, 0, to_), e)
  {
  }

  function Matching(cmp: Comparisons, q: Query, table: seq<Event>): seq<Event> {
    if table == [] then []
    else if Matches(cmp, q, table[0]) then [table[0]] + Matching(cmp, q, table[1..])
    else Matching(cmp, q, table[1..])
  }

  function EffectiveLimit(q: Query): int {
    if q.limit <= 0 then 1000 else q.limit
  }

  function EffectiveOffset(q: Query): int {
    if q.offset < 0 then 0 else q.offset
  }

  // ---- the builder preserves meaning ----

  /** Every clause compares columns and arguments that go together. */
  predicate WellTyped(c: Clause) {
    match (c.col, c.op, c.arg)
    case (ActionCol, Eq, Text(_)) => true
    case (UserCol, Like, Text(_)) => true
    case (TimeCol, Ge, Instant(_)) => true
    case (TimeCol, Le, Instant(_)) => true
    case _ => false
  }

  predicate Holds(cmp: Comparisons, c: Clause, e: Event) {
    Compare(cmp, c.col, c.op, c.arg, e) == Some(true)
  }

  /** The text of the clauses after the first condition, and the arguments from there on. */
  function Rest(cs: seq<Clause>): seq<Token> {
    if cs == [] then [] else Condition(cs[0]) + Rest(cs[1..])
  }

  lemma {:induction false} TokensFromTheFront(cs: seq<Clause>)
    ensures Tokens(cs) == [True_] + Rest(cs)
  {
    if cs == [] {
    } else {
      var front, last := cs[..|cs| - 1], cs[|cs| - 1];
      TokensFromTheFront(front);
      RestSnoc(front, last);
      assert cs == front + [last];
      Associates([True_], Rest(front), Condition(last));
    }
  }

  lemma {:induction false} RestSnoc(cs: seq<Clause>, c: Clause)
    ensures Rest(cs + [c]) == Rest(cs) + Condition(c)
  {
    if cs == [] {
      assert [c][1..] == [];
      assert cs + [c] == [c];
      assert Condition(c) + [] == Condition(c) == [] + Condition(c);
    } else {
      RestSnoc(cs[1..], c);
      assert (cs + [c])[1..] == cs[1..] + [c];
      Associates(Condition(cs[0]), Rest(cs[1..]), Condition(c));
    }
  }

  predicate AllHold(cmp: Comparisons, cs: seq<Clause>, e: Event) {
    cs == [] || (Holds(cmp, cs[0], e) && AllHold(cmp, cs[1..], e))
  }

  lemma Regroup(x: Token, y: Token, rest: seq<Token>, tail: seq<Token>)
    ensures [And, x, y, Mark] + rest + tail == [And] + ([x, y, Mark] + (rest + tail))
  {
  }

  lemma UnfoldArgs(cs: seq<Clause>, tailArgs: seq<Arg>)
    requires cs != []
    ensures Args(cs) + tailArgs == [cs[0].arg] + (Args(cs[1..]) + tailArgs)
  {
    var args := Args(cs[1..]);
    assert Args(cs) == [cs[0].arg] + args;
    assert [cs[0].arg] + args + tailArgs == [cs[0].arg] + (args + tailArgs);
  }

  lemma UnfoldTokens(cs: seq<Clause>, tail: seq<Token>)
    requires cs != []
    ensures Rest(cs) + tail == [And] + ([cs[0].col, cs[0].op, Mark] + (Rest(cs[1..]) + tail))
  {
    Regroup(cs[0].col, cs[0].op, Rest(cs[1..]), tail);
  }

  /** Evaluating the clauses' text consumes exactly their arguments, left to right. */
  lemma {:induction false} EvalClauses(cmp: Comparisons, b: bool, cs: seq<Clause>, tail: seq<Token>, tailArgs: seq<Arg>, e: Event)
    requires forall i :: 0 <= i < |cs| ==> WellTyped(cs[i])
    requires tail != [] ==> tail[0] != And
    ensures EvalMore(cmp, Parsed(b, Rest(cs) + tail, Args(cs) + tailArgs), e)
            == Some(Parsed(b && AllHold(cmp, cs, e), tail, tailArgs))
    decreases |cs|
  {
    if cs == [] {
      assert Rest(cs) + tail == tail && Args(cs) + tailArgs == tailArgs;
    } else {
      var c, toks, args := cs[0], Rest(cs[1..]) + tail, Args(cs[1..]) + tailArgs;
      UnfoldTokens(cs, tail);
      UnfoldArgs(cs, tailArgs);
      MoreReadsClause(cmp, b, c, toks, args, e);
      EvalClauses(cmp, b && Holds(cmp, c, e), cs[1..], tail, tailArgs, e);
    }
  }

  lemma MoreReadsClause(cmp: Comparisons, b: bool, c: Clause, toks: seq<Token>, args: seq<Arg>, e: Event)
    requires WellTyped(c)
    ensures EvalMore(cmp, Parsed(b, [And] + ([c.col, c.op, Mark] + toks), [c.arg] + args), e)
            == EvalMore(cmp, Parsed(b && Holds(cmp, c, e), toks, args), e)
  {
    AtomReadsClause(cmp, c, toks, args, e);
    assert ([And] + ([c.col, c.op, Mark] + toks))[1..] == [c.col, c.op, Mark] + toks;
  }

  lemma AtomReadsClause(cmp: Comparisons, c: Clause, toks: seq<Token>, args: seq<Arg>, e: Event)
    requires WellTyped(c)
    ensures EvalAtom(cmp, [c.col, c.op, Mark] + toks, [c.arg] + args, e) == Some(Parsed(Holds(cmp, c, e), toks, args))
  {
    assert ([c.col, c.op, Mark] + toks)[3..] == toks;
    assert ([c.arg] + args)[1..] == args;
  }

  lemma FragmentMeans(cmp: Comparisons, cs: seq<Clause>, tail: seq<Token>, tailArgs: seq<Arg>, e: Event)
    requires forall i :: 0 <= i < |cs| ==> WellTyped(cs[i])
    requires tail != [] ==> tail[0] != And
    ensures EvalWhere(cmp, Tokens(cs) + tail, Args(cs) + tailArgs, e) == Some(Parsed(AllHold(cmp, cs, e), tail, tailArgs))
  {
    TokensFromTheFront(cs);
    var toks, args := Tokens(cs) + tail, Args(cs) + tailArgs;
    assert toks[0] == True_ && toks[1..] == Rest(cs) + tail;
    assert EvalAtom(cmp, toks, args, e) == Some(Parsed(true, Rest(cs) + tail, args));
    EvalClauses(cmp, true, cs, tail, tailArgs, e);
  }

  /** For every query, evaluating the built fragment with its arguments bound left to right is
      the direct row predicate, and whatever follows it is left for the rest of the statement. */
  lemma FilterPreservesMeaning(cmp: Comparisons, q: Query, tail: seq<Token>, tailArgs: seq<Arg>, e: Event)
    requires tail != [] ==> tail[0] != And
    ensures EvalWhere(cmp, Tokens(Clauses(q)) + tail, Args(Clauses(q)) + tailArgs, e)
            == Some(Parsed(Matches(cmp, q, e), tail, tailArgs))
  {
    ClausesWellTyped(q);
    ClausesSayMatches(cmp, q, e);
    FragmentMeans(cmp, Clauses(q), tail, tailArgs, e);
  }

  lemma ClausesWellTyped(q: Query)
    ensures forall i :: 0 <= i < |Clauses(q)| ==> WellTyped(Clauses(q)[i])
  {
  }

  lemma {:induction false} AllHoldConcat(cmp: Comparisons, a: seq<Clause>, b: seq<Clause>, e: Event)
    ensures AllHold(cmp, a + b, e) <==> AllHold(cmp, a, e) && AllHold(cmp, b, e)
  {
    if a == [] {
      assert a + b == b;
    } else {
      AllHoldConcat(cmp, a[1..], b, e);
      assert (a + b)[1..] == a[1..] + b;
    }
  }

  lemma ClausesSayMatches(cmp: Comparisons, q: Query, e: Event)
    ensures AllHold(cmp, Clauses(q), e) <==> Matches(cmp, q, e)
  {
    var a := Optional(q.action != "", Clause(ActionCol, Eq, Text(q.action)));
    var u := Optional(q.user != "", Clause(UserCol, Like, Text("%" + q.user + "%")));
    var f := Optional(q.fromMs > 0, Clause(TimeCol, Ge, Instant(WholeSecond(q.fromMs))));
    var t := Optional(q.toMs > 0, Clause(TimeCol, Le, Instant(WholeSecond(q.toMs))));
    AllHoldConcat(cmp, a, u, e);
    AllHoldConcat(cmp, a + u, f, e);
    AllHoldConcat(cmp, a + u + f, t, e);
  }

  const PAGING: seq<Token> := [NewestFirst, Limit, Mark, Offset, Mark]

  /** The whole statement selects exactly the matching rows, in table order. */
  lemma {:induction false} SelectsMatching(cmp: Comparisons, q: Query, more: seq<Arg>, table: seq<Event>)
    ensures Selected(cmp, Tokens(Clauses(q)) + PAGING, Args(Clauses(q)) + more, table) == Some(Matching(cmp, q, table))
  {
    if table == [] {
    } else {
      FilterPreservesMeaning(cmp, q, PAGING, more, table[0]);
      SelectsMatching(cmp, q, more, table[1..]);
    }
  }

  /** The appended limit and offset bind to LIMIT and OFFSET. */
  lemma StatementPreservesMeaning(cmp: Comparisons, q: Query, limit: int, offset: int, table: seq<Event>)
    ensures Execute(cmp, Tokens(Clauses(q)) + PAGING, Args(Clauses(q)) + [Number(limit), Number(offset)], table)
            == Some(Page(Matching(cmp, q, table), limit, offset))
  {
    if table != [] {
      FilterPreservesMeaning(cmp, q, PAGING, [Number(limit), Number(offset)], table[0]);
      SelectsMatching(cmp, q, [Number(limit), Number(offset)], table);
    }
  }

  /** An order in which the database may return its rows: equal times as it pleases. */
  ghost predicate InResultOrder(cmp: Comparisons, rows: seq<Event>, db: seq<Event>) {
    && multiset(rows) == multiset(db)
    && (forall i, j :: 0 <= i < j < |rows| ==> cmp.precedes(rows[i].time, rows[j].time))
  }

  /** Store.Query: newest rows first, so the table is given in that order. */
  method RunQuery(cmp: Comparisons, q: Query, table: seq<Event>) returns (rows: Option<seq<Event>>)
    ensures rows == Some(Page(Matching(cmp, q, table), EffectiveLimit(q), EffectiveOffset(q)))
    ensures q.limit <= 0 && q.offset <= 0 && |Matching(cmp, q, table)| <= 1000 ==> rows == Some(Matching(cmp, q, table))
    ensures q.limit <= 0 ==> |rows.value| <= 1000
    ensures q.limit > 0 ==> |rows.value| <= q.limit
  {
    var limit := q.limit;
    if limit <= 0 {
      limit := 1000;
    }
    var offset := q.offset;
    if offset < 0 {
      offset := 0;
    }
    var where, args := FilterClause(q);
    args := args + [Number(limit), Number(offset)];
    rows := Execute(cmp, where + PAGING, args, table);
    StatementPreservesMeaning(cmp, q, limit, offset, table);
  }

  /** Store.Count: the same fragment without the paging. */
  method RunCount(cmp: Comparisons, q: Query, table: seq<Event>) returns (n: nat)
    ensures n == |Matching(cmp, q, table)|
  {
    var where, args := FilterClause(q);
    var rows := Selected(cmp, where, args, table);
    CountsMatching(cmp, q, table);
    n := |rows.value|;
  }

  lemma {:induction false} CountsMatching(cmp: Comparisons, q: Query, table: seq<Event>)
    ensures Selected(cmp, Tokens(Clauses(q)), Args(Clauses(q)), table) == Some(Matching(cmp, q, table))
  {
    if table == [] {
    } else {
      FilterPreservesMeaning(cmp, q, [], [], table[0]);
      assert Tokens(Clauses(q)) + [] == Tokens(Clauses(q)) && Args(Clauses(q)) + [] == Args(Clauses(q));
      CountsMatching(cmp, q, table[1..]);
    }
  }

  /** Matching keeps exactly the matching rows, as often as they occur. */
  lemma {:induction false} MatchingIsFilter(cmp: Comparisons, q: Query, table: seq<Event>, e: Event)
    ensures multiset(Matching(cmp, q, table))[e] == if Matches(cmp, q, e) then multiset(table)[e] else 0
  {
    if table == [] {
    } else {
      MatchingIsFilter(cmp, q, table[1..], e);
      assert table == [table[0]] + table[1..];
    }
  }
}
