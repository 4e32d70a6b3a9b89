/** Logins: as one atomic step, and as the separate steps that concurrent requests interleave. */
module Logins {
  import opened Common
  import opened Accounts
  import opened AccountRuns

  /** What the outside world contributes to one login: the settings in force and the answers
      of the directory and the mail server. */
  datatype World = World(
    ldapOn: bool, ldapAccepts: bool, ldapDefaults: seq<string>,
    imapOn: bool, imapAccepts: bool, auto: bool, imapDefaults: seq<string>)

  datatype Outcome = Malformed | Rejected | Unapproved | LoggedIn(source: Source)

  /** External fallbacks apply to unknown users and to users of an external source. */
  predicate CanFallback(u: Option<Account>) {
    u.None? || External(u.value.source)
  }

  /** The directory is asked first, the mail server only if that did not succeed. */
  function Fallback(s: State, name: string, e: World): (State, Outcome) {
    if e.ldapOn && e.ldapAccepts then (ProvisionLDAP(s, name, e.ldapDefaults), LoggedIn(LDAP))
    else if e.imapOn && e.imapAccepts then
      var (s1, status) := ProvisionIMAP(s, name, e.auto, e.imapDefaults);
      (s1, if status == Pending then Unapproved else LoggedIn(IMAP))
    else (s, Rejected)
  }

  /** A whole login with nothing in between. */
  function Login(h: Hasher, s: State, name: string, password: string, e: World, tok: string, expires: int): (State, Outcome) {
    if name == "" || password == "" then (s, Malformed) else
    var (u, ok) := Verify(h, s, name, password);
    if ok then (OpenSession(s, tok, name, u.value.role, expires), LoggedIn(Local))
    else if !CanFallback(u) then (s, Rejected)
    else
      var (s1, outcome) := Fallback(s, name, e);
      (if outcome.LoggedIn? then OpenSession(s1, tok, name, s1.users[name].role, expires) else s1, outcome)
  }

  // ---- atomic logins ----

  datatype Atomic =
    | Admin(op: Op)
    | Enter(name: string, password: string, world: World, tok: string, expires: int)

  /** Every step other than those a login is made of. */
  predicate Administrative(op: Op) {
    !op.DoProvisionLDAP? && !op.DoProvisionIMAP? && !op.DoOpenSession?
  }

  predicate AllAdministrative(w: seq<Atomic>) {
    forall i :: 0 <= i < |w| ==> w[i].Admin? ==> Administrative(w[i].op)
  }

  function AtomicStep(h: Hasher, s: State, a: Atomic): State {
    match a
    case Admin(op) => Step(h, s, op)
    case Enter(name, password, world, tok, expires) => Login(h, s, name, password, world, tok, expires).0
  }

  function AtomicRun(h: Hasher, s: State, w: seq<Atomic>): State {
    if w == [] then s else AtomicStep(h, AtomicRun(h, s, w[..|w| - 1]), w[|w| - 1])
  }

  /** Every session names an existing user. */
  predicate SessionsNamed(s: State) {
    forall tok :: tok in s.sessions ==> s.sessions[tok].username in s.users
  }

  lemma AtomicStepNamed(h: Hasher, s: State, a: Atomic)
    requires SessionsNamed(s) && (a.Admin? ==> Administrative(a.op))
    ensures SessionsNamed(AtomicStep(h, s, a))
  {
  }

  /** With each login taken as one step, no reachable state has a session without its user. */
  lemma {:induction false} SessionsAlwaysNamed(h: Hasher, seeds: seq<Seed>, w: seq<Atomic>)
    requires AllAdministrative(w)
    ensures SessionsNamed(AtomicRun(h, Initial(h, seeds), w))
    decreases w
  {
    if w == [] {
    } else {
      SessionsAlwaysNamed(h, seeds, w[..|w| - 1]);
      AtomicStepNamed(h, AtomicRun(h, Initial(h, seeds), w[..|w| - 1]), w[|w| - 1]);
    }
  }

  /** An account that is local stays as it is through any login, and is entered exactly with
      its password, whatever the directory and the mail server answer. */
  lemma LocalLoginIsLocal(h: Hasher, s: State, name: string, password: string, e: World, tok: string, expires: int)
    requires CredentialsMatch(s.users) && name in s.users && !External(s.users[name].source)
    ensures var (s', outcome) := Login(h, s, name, password, e, tok, expires);
            && s'.users == s.users
            && (outcome == LoggedIn(Local) <==>
                  name != "" && password != "" && h(s.users[name].salt, password) == s.users[name].hash)
            && (outcome.LoggedIn? ==> outcome == LoggedIn(Local))
  {
  }

  /** A login that succeeds, by whatever source, opens exactly the session of its token: it names
      the user, carries the role of the account, and authenticates at every time up to its expiry
      and at none after it. Every other login leaves all sessions alone. */
  lemma LoginOpensSession(h: Hasher, s: State, name: string, password: string, e: World, tok: string, expires: int)
    ensures var (s', outcome) := Login(h, s, name, password, e, tok, expires);
            && (outcome.LoggedIn? ==>
                  && name in s'.users && tok in s'.sessions
                  && s'.sessions[tok].username == name
                  && s'.sessions[tok].role == s'.users[name].role
                  && forall now: int ::
                       (now <= expires ==> Authenticate(s', tok, now).1 == Some(name))
                       && (now > expires ==> Authenticate(s', tok, now).1 == None))
            && (forall t :: t in s.sessions && t != tok ==> t in s'.sessions && s'.sessions[t] == s.sessions[t])
            && (forall t :: t in s'.sessions && t != tok ==> t in s.sessions)
            && (!outcome.LoggedIn? ==> s'.sessions == s.sessions)
  {
  }

  /** How each login ends: by the local password; else, for users without a local credential, by
      the directory, with its defaults; else by the mail server, with its own. */
  lemma OutcomeExactly(h: Hasher, s: State, name: string, password: string, e: World, tok: string, expires: int)
    requires name != "" && password != ""
    ensures var (s', outcome) := Login(h, s, name, password, e, tok, expires);
            var local := name in s.users && s.users[name].hash != "" && h(s.users[name].salt, password) == s.users[name].hash;
            var outside := name !in s.users || External(s.users[name].source);
            var known := name in s.users && s.users[name].source == IMAP;
            var directory := e.ldapOn && e.ldapAccepts;
            var mail := e.imapOn && e.imapAccepts;
            && (outcome == LoggedIn(Local) <==> local)
            && (outcome == LoggedIn(LDAP) <==> !local && outside && directory)
            && (outcome == LoggedIn(IMAP) <==> !local && outside && !directory && mail && (known || e.auto))
            && (outcome == Unapproved <==> !local && outside && !directory && mail && !known && !e.auto)
            && (outcome == Rejected <==> !local && (!outside || (!directory && !mail)))
            && (outcome == LoggedIn(LDAP) ==>
                  s'.users == if name in s.users && s.users[name].source == LDAP then s.users
                              else s.users[name := Account("", "", Member, e.ldapDefaults, LDAP)])
            && (outcome == LoggedIn(IMAP) ==>
                  s'.users == if known then s.users
                              else s.users[name := Account("", "", Member, e.imapDefaults, IMAP)])
            && (outcome != LoggedIn(LDAP) && outcome != LoggedIn(IMAP) ==> s'.users == s.users)
            && s'.groups == s.groups
  {
  }

  // ---- interleaved logins ----

  /** A login between its steps: what verify told it, and the role it will put in its session. */
  datatype Flight = Flight(name: string, fallback: bool, ok: bool, role: Role)

  datatype Sys = Sys(s: State, flights: map<nat, Flight>)

  datatype Event =
    | Server(op: Op)                                       // any step that is not a login's
    | Begin(id: nat, name: string, password: string)       // verify
    | ViaLDAP(id: nat, defaults: seq<string>)              // the directory accepts
    | ViaIMAP(id: nat, auto: bool, defaults: seq<string>)  // the mail server accepts
    | Finish(id: nat, tok: string, expires: int)           // the session is opened
    | Refuse(id: nat)

  predicate Enabled(y: Sys, e: Event) {
    match e
    case Server(op) => Administrative(op)
    case Begin(id, _, _) => id !in y.flights
    case ViaLDAP(id, _) => id in y.flights && !y.flights[id].ok && y.flights[id].fallback
    case ViaIMAP(id, _, _) => id in y.flights && !y.flights[id].ok && y.flights[id].fallback
    case Finish(id, _, _) => id in y.flights && y.flights[id].ok
    case Refuse(id) => id in y.flights && !y.flights[id].ok
  }

  /** The account step an event amounts to, if any. */
  function Projected(y: Sys, e: Event): seq<Op>
    requires Enabled(y, e)
  {
    match e
    case Server(op) => [op]
    case Begin(_, _, _) => []
    case ViaLDAP(id, defaults) => [DoProvisionLDAP(y.flights[id].name, defaults)]
    case ViaIMAP(id, auto, defaults) => [DoProvisionIMAP(y.flights[id].name, auto, defaults)]
    case Finish(id, tok, expires) => [DoOpenSession(tok, y.flights[id].name, y.flights[id].role, expires)]
    case Refuse(_) => []
  }

  function Next(h: Hasher, y: Sys, e: Event): Sys
    requires Enabled(y, e)
  {
    match e
    case Server(op) => y.(s := Step(h, y.s, op))
    case Begin(id, name, password) =>
      var (u, ok) := Verify(h, y.s, name, password);
      y.(flights := y.flights[id := Flight(name, CanFallback(u), ok, if u.Some? then u.value.role else Member)])
    case ViaLDAP(id, defaults) =>
      var f := y.flights[id];
      var s' := ProvisionLDAP(y.s, f.name, defaults);
      Sys(s', y.flights[id := f.(ok := true, role := s'.users[f.name].role)])
    case ViaIMAP(id, auto, defaults) =>
      var f := y.flights[id];
      var (s', status) := ProvisionIMAP(y.s, f.name, auto, defaults);
      if status == Pending then y
      else Sys(s', y.flights[id := f.(ok := true, role := s'.users[f.name].role)])
    case Finish(id, tok, expires) =>
      var f := y.flights[id];
      Sys(OpenSession(y.s, tok, f.name, f.role, expires), y.flights - {id})
    case Refuse(id) => y.(flights := y.flights - {id})
  }

  predicate CanRun(h: Hasher, y: Sys, w: seq<Event>)
    decreases w
  {
    w != [] ==> Enabled(y, w[0]) && CanRun(h, Next(h, y, w[0]), w[1..])
  }

  function RunAll(h: Hasher, y: Sys, w: seq<Event>): Sys
    requires CanRun(h, y, w)
    decreases w
  {
    if w == [] then y else RunAll(h, Next(h, y, w[0]), w[1..])
  }

  function Trace(h: Hasher, y: Sys, w: seq<Event>): seq<Op>
    requires CanRun(h, y, w)
    decreases w
  {
    if w == [] then [] else Projected(y, w[0]) + Trace(h, Next(h, y, w[0]), w[1..])
  }

  lemma {:induction false} RunConcat(h: Hasher, s: State, a: seq<Op>, b: seq<Op>)
    ensures Run(h, s, a + b) == Run(h, Run(h, s, a), b)
    decreases b
  {
    if b == [] {
      assert a + b == a;
    } else {
      RunConcat(h, s, a, b[..|b| - 1]);
      assert (a + b)[..|a + b| - 1] == a + b[..|b| - 1];
    }
  }

  /** Interleaved logins reach nothing that the account steps alone do not reach. */
  lemma {:induction false} InterleavingsAreRuns(h: Hasher, y: Sys, w: seq<Event>)
    requires CanRun(h, y, w)
    ensures RunAll(h, y, w).s == Run(h, y.s, Trace(h, y, w))
    decreases w
  {
    if w == [] {
    } else {
      var y' := Next(h, y, w[0]);
      InterleavingsAreRuns(h, y', w[1..]);
      RunConcat(h, y.s, Projected(y, w[0]), Trace(h, y', w[1..]));
      OneStep(h, y, w[0]);
    }
  }

  lemma OneStep(h: Hasher, y: Sys, e: Event)
    requires Enabled(y, e)
    ensures Next(h, y, e).s == Run(h, y.s, Projected(y, e))
  {
    var ops := Projected(y, e);
    if ops != [] {
      assert ops[..|ops| - 1] == [];
    }
  }

  /** So accounts keep their credential kind under every interleaving of logins. */
  lemma InterleavedSound(h: Hasher, seeds: seq<Seed>, w: seq<Event>)
    requires CanRun(h, Sys(Initial(h, seeds), map[]), w)
    ensures Sound(RunAll(h, Sys(Initial(h, seeds), map[]), w).s)
  {
    var y := Sys(Initial(h, seeds), map[]);
    InterleavingsAreRuns(h, y, w);
    RunSound(h, seeds, Trace(h, y, w));
  }

  predicate Provisions(e: Event, id: nat) {
    (e.ViaLDAP? || e.ViaIMAP?) && e.id == id
  }

  /** The events of a run belong to at most one login of an id: it does not begin again. */
  predicate NotAgain(w: seq<Event>, id: nat) {
    forall i :: 0 <= i < |w| ==> !(w[i].Begin? && w[i].id == id)
  }

  /** What a login that may not fall back can still do. */
  predicate KeepsOut(w: seq<Event>, id: nat, ok: bool) {
    forall i :: 0 <= i < |w| ==> !Provisions(w[i], id) && (w[i].Finish? && w[i].id == id ==> ok)
  }

  lemma {:induction false} FlightKeepsOut(h: Hasher, y: Sys, w: seq<Event>, id: nat, ok: bool)
    requires CanRun(h, y, w) && NotAgain(w, id)
    requires id in y.flights ==> !y.flights[id].fallback && y.flights[id].ok == ok
    ensures KeepsOut(w, id, ok)
    decreases w
  {
    if w == [] {
    } else {
      assert forall i :: 0 <= i < |w[1..]| ==> w[1..][i] == w[i + 1];
      assert !(w[0].Begin? && w[0].id == id);
      FlightKeepsOut(h, Next(h, y, w[0]), w[1..], id, ok);
      assert forall i :: 1 <= i < |w| ==> w[i] == w[1..][i - 1];
    }
  }

  /** A login that begins on a local account never reaches an external fallback, and opens a
      session only with the password the account had when it began, whatever else runs and
      however the account changes in between. With that password it can open one at once. */
  lemma SeenAsLocalStaysLocal(h: Hasher, y: Sys, id: nat, name: string, password: string, w: seq<Event>)
    requires Enabled(y, Begin(id, name, password))
    requires name in y.s.users && !External(y.s.users[name].source)
    requires CanRun(h, Next(h, y, Begin(id, name, password)), w) && NotAgain(w, id)
    ensures var right := h(y.s.users[name].salt, password) == y.s.users[name].hash;
            && KeepsOut(w, id, right)
            && (forall tok, expires ::
                  Enabled(Next(h, y, Begin(id, name, password)), Finish(id, tok, expires)) <==> right)
  {
    var right := h(y.s.users[name].salt, password) == y.s.users[name].hash;
    assert Verify(h, y.s, name, password).1 == right;
    FlightKeepsOut(h, Next(h, y, Begin(id, name, password)), w, id, right);
  }

  /** An event keeps every session naming an existing user exactly when it is not the end of a
      login whose user is gone. */
  lemma EventKeepsNamed(h: Hasher, y: Sys, e: Event)
    requires SessionsNamed(y.s) && Enabled(y, e)
    ensures SessionsNamed(Next(h, y, e).s) <==> (e.Finish? ==> y.flights[e.id].name in y.s.users)
  {
    var y' := Next(h, y, e);
    if e.Finish? {
      assert y'.s.sessions[e.tok].username == y.flights[e.id].name;
    }
  }

  // ---- what interleaving and mixed sources break ----

  /** A login that finishes after its user is deleted leaves a session that names nobody. */
  lemma LateSessionDangles(h: Hasher)
    ensures var y := Sys(Initial(h, [Seed("root", "pw", Role.Admin, "s"), Seed("x", "pw", Member, "s")]), map[]);
            var w := [Begin(0, "x", "pw"), Server(DoDeleteUser("x")), Finish(0, "tok", 1)];
            CanRun(h, y, w) && !SessionsNamed(RunAll(h, y, w).s)
  {
    var seeds := [Seed("root", "pw", Role.Admin, "s"), Seed("x", "pw", Member, "s")];
    assert seeds[..1] == [Seed("root", "pw", Role.Admin, "s")] && seeds[..1][..0] == [];
    var users := Seeded(h, seeds);
    assert users == Seeded(h, seeds[..1])["x" := Account(h("s", "pw"), "s", Member, ["users"], Local)];
    var y0 := Sys(Initial(h, seeds), map[]);
    var e0, e1, e2 := Begin(0, "x", "pw"), Server(DoDeleteUser("x")), Finish(0, "tok", 1);
    var y1 := Next(h, y0, e0);
    assert y1.flights[0].ok;
    var y2 := Next(h, y1, e1);
    assert "x" !in y2.s.users;
    var y3 := Next(h, y2, e2);
    assert y3.s.sessions["tok"].username == "x";
    var w := [e0, e1, e2];
    assert w[1..] == [e1, e2] && [e1, e2][1..] == [e2] && [e2][1..] == [];
    assert CanRun(h, y2, [e2]) && RunAll(h, y2, [e2]) == y3;
    assert CanRun(h, y1, [e1, e2]) && RunAll(h, y1, [e1, e2]) == y3;
  }

  /** The login comes in as the only administrator, an external account, through the other
      directory than the one the account came from. */
  predicate ComesInOtherwise(h: Hasher, s: State, name: string, password: string, e: World) {
    && name != "" && password != "" && !Verify(h, s, name, password).1
    && Admins(s.users) == {name}
    && match s.users[name].source
       case IMAP => e.ldapOn && e.ldapAccepts
       case LDAP => !(e.ldapOn && e.ldapAccepts) && e.imapOn && e.imapAccepts && e.auto
       case _ => false
  }

  /** Those are exactly the logins that lose the last administrator. */
  lemma LoginLosesFloorExactly(h: Hasher, s: State, name: string, password: string, e: World, tok: string, expires: int)
    requires Admins(s.users) != {}
    ensures Admins(Login(h, s, name, password, e, tok, expires).0.users) == {} <==>
            ComesInOtherwise(h, s, name, password, e)
  {
    ProvisionKeepsAdmin(s, name, LDAP, e.ldapDefaults);
    ProvisionKeepsAdmin(s, name, IMAP, e.imapDefaults);
    if Admins(s.users) == {name} {
      assert name in Admins(s.users);
    }
  }

  /** It does happen, with atomic logins only: a mail account is made an administrator, the
      other administrator is deleted, and the mail account then logs in through LDAP. */
  lemma DirectoryLoginDemotesLastAdmin(h: Hasher)
    ensures var via := (ldap: bool) => World(ldap, ldap, [], !ldap, !ldap, true, []);
            var s0 := Initial(h, [Seed("root", "pw", Role.Admin, "s")]);
            var s1 := Login(h, s0, "m", "pw", via(false), "t1", 1).0;
            var s2 := UpdateUser(h, s1, "m", Change(Some(Role.Admin), None, None), "s").0;
            var s3 := DeleteUser(s2, "root").0;
            var s4 := Login(h, s3, "m", "pw", via(true), "t2", 1).0;
            Admins(s3.users) == {"m"} && Admins(s4.users) == {}
  {
    var s0 := Initial(h, [Seed("root", "pw", Role.Admin, "s")]);
    assert [Seed("root", "pw", Role.Admin, "s")][..0] == [];
    assert s0.users == map["root" := Account(h("s", "pw"), "s", Role.Admin, [], Local)];
    var s1 := Login(h, s0, "m", "pw", World(false, false, [], true, true, true, []), "t1", 1).0;
    assert s1.users == s0.users["m" := Account("", "", Member, [], IMAP)];
    var s2 := UpdateUser(h, s1, "m", Change(Some(Role.Admin), None, None), "s").0;
    assert s2.users["m"] == Account("", "", Role.Admin, [], IMAP);
    assert Admins(s2.users) == {"root", "m"};
    assert "root" != "m";
    var s3 := DeleteUser(s2, "root").0;
    assert s3.users == map["m" := Account("", "", Role.Admin, [], IMAP)];
    assert Admins(s3.users) == {"m"};
    LoginLosesFloorExactly(h, s3, "m", "pw", World(true, true, [], false, false, true, []), "t2", 1);
  }
}
