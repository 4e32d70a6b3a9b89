/** The account service: maps of users, groups and sessions, with each user's group list kept
    in a backing array of its own. Every handler is proved against module Accounts. */
module Service {
  import opened Common
  import opened Permissions
  import opened Accounts
  import L = Logins

  /** A user record; its group list is the first `count` elements of the backing array. */
  datatype User = User(hash: string, salt: string, role: Role, groups: array<string>, count: nat, source: Source)

  ghost predicate Stands(u: User, a: Account)
    reads u.groups
  {
    && u.count <= u.groups.Length
    && a == Account(u.hash, u.salt, u.role, u.groups[..u.count], u.source)
  }

  /** A new backing array. */
  method Allocate(gs: seq<string>) returns (a: array<string>)
    ensures fresh(a) && a[..] == gs
  {
    a := new string[|gs|](i requires 0 <= i < |gs| => gs[i]);
  }

  /** Filters the first `count` elements in place: the kept ones move to the front. */
  method Compact(a: array<string>, count: nat, name: string) returns (kept: nat)
    requires count <= a.Length
    modifies a
    ensures kept <= count && a[..kept] == Without(old(a[..count]), name)
  {
    kept := 0;
    ghost var before := a[..count];
    for i := 0 to count
      invariant kept <= i
      invariant a[..kept] == Without(before[..i], name)
      invariant a[i..count] == before[i..]
    {
      var g := a[i];
      assert g == a[i..count][0] == before[i];
      assert before[..i + 1][..i] == before[..i];
      assert a[i + 1..count] == a[i..count][1..];
      if g != name {
        a[kept] := g;
        assert a[..kept + 1] == a[..kept] + [g];
        kept := kept + 1;
      }
    }
    assert before[..count] == before;
  }

  class Service {
    const hasher: Hasher
    const ttl: int
    var users: map<string, User>
    var groups: map<string, seq<Perm>>
    var sessions: map<string, Session>

    ghost var accounts: map<string, Account>       // the values the user records stand for
    ghost var owner: map<array<string>, string>    // the one user each backing array belongs to

    /** Distinct users never share a backing array. */
    ghost predicate Valid()
      reads this, owner.Keys
    {
      && users.Keys == accounts.Keys
      && (forall name :: name in users ==> users[name].groups in owner && owner[users[name].groups] == name)
      && (forall name :: name in users ==> Stands(users[name], accounts[name]))
    }

    ghost function Abs(): State
      reads this
    {
      State(accounts, groups, sessions)
    }

    /** Backing arrays only ever join the service by being allocated. */
    twostate predicate OwnsFresh()
      reads this
    {
      forall a :: a in owner ==> a in old(owner) || fresh(a)
    }

    constructor (h: Hasher, ttl: int, seeds: seq<Seed>)
      ensures Valid() && forall a :: a in owner ==> fresh(a)
      ensures hasher == h && this.ttl == (if ttl <= 0 then 24 * 3600 * 1_000_000_000 else ttl)
      ensures Abs() == Initial(h, seeds)
    {
      hasher := h;
      this.ttl := if ttl <= 0 then 24 * 3600 * 1_000_000_000 else ttl;
      users, accounts, owner := map[], map[], map[];
      groups := map[USERS_GROUP := [Download], ADMIN_GROUP := VALID_PERMS];
      sessions := map[];
      new;
      for i := 0 to |seeds|
        invariant Valid() && forall a :: a in owner ==> fresh(a)
        invariant accounts == Seeded(h, seeds[..i])
        invariant groups == map[USERS_GROUP := [Download], ADMIN_GROUP := VALID_PERMS] && sessions == map[]
      {
        var u := seeds[i];
        assert seeds[..i + 1][..i] == seeds[..i];
        if u.username != "" && u.password != "" {
          var role := if u.role != Admin then Member else Admin;
          AddUser(u.username, hasher(u.salt, u.password), u.salt, role, Local);
        }
      }
      assert seeds[..|seeds|] == seeds;
    }

    /** Stores a user record under a name, with its own backing array. */
    method Put(name: string, hash: string, salt: string, role: Role, gs: seq<string>, source: Source)
      requires Valid()
      modifies this`users, this`accounts, this`owner
      ensures Valid() && OwnsFresh()
      ensures accounts == old(accounts)[name := Account(hash, salt, role, gs, source)]
    {
      var a := Allocate(gs);
      users := users[name := User(hash, salt, role, a, |gs|, source)];
      accounts := accounts[name := Account(hash, salt, role, gs, source)];
      owner := owner[a := name];
    }

    /** A user record as created locally: only members start in the users group. */
    method AddUser(name: string, hash: string, salt: string, role: Role, source: Source)
      requires Valid()
      modifies this`users, this`accounts, this`owner
      ensures Valid() && OwnsFresh()
      ensures accounts == old(accounts)[name := Account(hash, salt, role, InitialGroups(role), source)]
    {
      var gs := [];
      if role != Admin {
        gs := gs + [USERS_GROUP];
      }
      assert gs == InitialGroups(role);
      Put(name, hash, salt, role, gs, source);
    }

    // ---- queries ----

    method AdminCount() returns (n: nat)
      requires Valid()
      ensures n == |Admins(accounts)|
    {
      n := 0;
      var todo := users.Keys;
      ghost var found: set<string> := {};
      while todo != {}
        invariant todo <= users.Keys
        invariant forall name :: name in found <==> name in users && name !in todo && users[name].role == Admin
        invariant n == |found|
        decreases todo
      {
        var name :| name in todo;
        todo := todo - {name};
        if users[name].role == Admin {
          n, found := n + 1, found + {name};
        }
      }
      assert found == Admins(accounts);
    }

    method Verify(name: string, password: string) returns (exists_: bool, external: bool, ok: bool, role: Role)
      requires Valid()
      ensures var (u, good) := Accounts.Verify(hasher, Abs(), name, password);
              && ok == good && exists_ == u.Some?
              && (u.Some? ==> role == u.value.role && external == External(u.value.source))
    {
      if name !in users {
        return false, false, false, Member;
      }
      var u := users[name];
      if u.hash == "" {
        return true, External(u.source), false, u.role;
      }
      return true, External(u.source), hasher(u.salt, password) == u.hash, u.role;
    }

    /** The union over a user's groups, unknown ones skipped. */
    method EffectivePerms(name: string) returns (perms: set<Perm>)
      requires Valid()
      ensures perms == Accounts.EffectivePerms(Abs(), name)
    {
      perms := {};
      if name !in users {
        return;
      }
      var u := users[name];
      if u.role == Admin {
        perms := set p | p in VALID_PERMS;
        return;
      }
      for i := 0 to u.count
        invariant forall p :: p in perms <==> exists g :: g in u.groups[..i] && g in groups && p in groups[g]
      {
        var g := u.groups[i];
        assert u.groups[..i + 1] == u.groups[..i] + [g];
        if g in groups {
          perms := AddAll(perms, groups[g]);
        }
      }
    }

    static method AddAll(perms: set<Perm>, more: seq<Perm>) returns (all: set<Perm>)
      ensures forall p :: p in all <==> p in perms || p in more
    {
      all := perms;
      for i := 0 to |more|
        invariant forall p :: p in all <==> p in perms || p in more[..i]
      {
        all := all + {more[i]};
      }
      assert more[..|more|] == more;
    }

    method PermsList(name: string) returns (list: seq<Perm>)
      requires Valid()
      ensures list == Listed(VALID_PERMS, Accounts.EffectivePerms(Abs(), name))
    {
      var perms := EffectivePerms(name);
      list := [];
      for i := 0 to |VALID_PERMS|
        invariant list == Listed(VALID_PERMS[..i], perms)
      {
        var p := VALID_PERMS[i];
        assert VALID_PERMS[..i + 1][..i] == VALID_PERMS[..i];
        if p in perms {
          list := list + [p];
        }
      }
      assert VALID_PERMS[..|VALID_PERMS|] == VALID_PERMS;
    }

    // ---- users ----

    method CreateUser(name: string, password: string, role: Role, salt: string) returns (status: Status)
      requires Valid()
      modifies this`users, this`accounts, this`owner
      ensures Valid() && OwnsFresh()
      ensures (Abs(), status) == Accounts.CreateUser(hasher, old(Abs()), name, password, role, salt)
    {
      if name == "" || password == "" || (role != Admin && role != Member) {
        return BadRequest;
      }
      if name in users {
        return Conflict;
      }
      AddUser(name, hasher(salt, password), salt, role, Untagged);
      status := Done;
    }

    method KnownGroups(gs: seq<string>) returns (known: bool)
      ensures known <==> forall g :: g in gs ==> g in groups
    {
      for i := 0 to |gs|
        invariant forall g :: g in gs[..i] ==> g in groups
      {
        if gs[i] !in groups {
          return false;
        }
      }
      assert gs[..|gs|] == gs;
      known := true;
    }

    /** The record after an accepted update; a new group list comes in a new array. */
    method Revise(u: User, ghost a: Account, c: Change, salt: string) returns (u': User)
      requires Stands(u, a)
      ensures Stands(u', Changed(hasher, a, c, salt))
      ensures u'.groups == u.groups || fresh(u'.groups)
    {
      u' := u;
      if c.role.Some? {
        u' := u'.(role := c.role.value);
      }
      if c.password.Some? && c.password.value != "" {
        u' := u'.(hash := hasher(salt, c.password.value), salt := salt);
      }
      if c.groups.Some? {
        var arr := Allocate(c.groups.value);
        u' := u'.(groups := arr, count := |c.groups.value|);
      }
    }

    method Apply(name: string, c: Change, salt: string)
      requires Valid() && name in users
      modifies this`users, this`accounts, this`owner
      ensures Valid() && OwnsFresh()
      ensures accounts == old(accounts)[name := Changed(hasher, old(accounts)[name], c, salt)]
    {
      var u := Revise(users[name], accounts[name], c, salt);
      users := users[name := u];
      accounts := accounts[name := Changed(hasher, accounts[name], c, salt)];
      owner := owner[u.groups := name];
    }

    method UpdateUser(name: string, c: Change, salt: string) returns (status: Status)
      requires Valid()
      modifies this`users, this`accounts, this`owner
      ensures Valid() && OwnsFresh()
      ensures (Abs(), status) == Accounts.UpdateUser(hasher, old(Abs()), name, c, salt)
    {
      if c.role.Some? && c.role.value != Admin && c.role.value != Member {
        return BadRequest;
      }
      if name !in users {
        return NotFound;
      }
      var u := users[name];
      if External(u.source) && c.password.Some? && c.password.value != "" {
        return BadRequest;
      }
      if c.groups.Some? {
        var known := KnownGroups(c.groups.value);
        if !known {
          return BadRequest;
        }
      }
      if c.role.Some? && u.role == Admin && c.role.value != Admin {
        var n := AdminCount();
        if n <= 1 {
          return Conflict;
        }
      }
      Apply(name, c, salt);
      status := Done;
    }

    /** Deletes exactly the sessions of one user. */
    method CloseSessions(name: string)
      modifies this`sessions
      ensures sessions == SessionsOfOthers(old(sessions), name)
    {
      var todo := sessions.Keys;
      while todo != {}
        invariant todo <= sessions.Keys <= old(sessions).Keys
        invariant forall tok :: tok in sessions ==> sessions[tok] == old(sessions)[tok]
        invariant forall tok :: tok in old(sessions) && tok !in todo ==>
                    (tok in sessions <==> old(sessions)[tok].username != name)
        decreases todo
      {
        var tok :| tok in todo;
        todo := todo - {tok};
        if sessions[tok].username == name {
          sessions := sessions - {tok};
        }
      }
    }

    method RemoveUser(name: string)
      requires Valid()
      modifies this`users, this`accounts
      ensures Valid() && accounts == old(accounts) - {name}
    {
      users, accounts := users - {name}, accounts - {name};
    }

    method DeleteUser(name: string) returns (status: Status)
      requires Valid()
      modifies this`users, this`accounts, this`sessions
      ensures Valid()
      ensures (Abs(), status) == Accounts.DeleteUser(old(Abs()), name)
    {
      if name !in users {
        return NotFound;
      }
      if users[name].role == Admin {
        var n := AdminCount();
        if n <= 1 {
          return Conflict;
        }
      }
      RemoveUser(name);
      CloseSessions(name);
      status := Done;
    }

    // ---- groups ----

    method CreateGroup(name: string, perms: seq<Perm>) returns (status: Status)
      requires Valid()
      modifies this`groups
      ensures Valid()
      ensures (Abs(), status) == Accounts.CreateGroup(old(Abs()), name, perms)
    {
      if name == "" {
        return BadRequest;
      }
      var r := NormalizePerms(perms);
      if r.Err? {
        return BadRequest;
      }
      if name in groups {
        return Conflict;
      }
      groups := groups[name := r.value];
      status := Done;
    }

    method UpdateGroup(name: string, perms: seq<Perm>) returns (status: Status)
      requires Valid()
      modifies this`groups
      ensures Valid()
      ensures (Abs(), status) == Accounts.UpdateGroup(old(Abs()), name, perms)
    {
      var r := NormalizePerms(perms);
      if r.Err? {
        return BadRequest;
      }
      if name !in groups {
        return NotFound;
      }
      groups := groups[name := r.value];
      status := Done;
    }

    /** The record without the group: its list is compacted where it is. */
    method Shrink(u: User, ghost a: Account, group: string) returns (u': User)
      requires Stands(u, a)
      modifies u.groups
      ensures Stands(u', LeaveGroup(a, group)) && u'.groups == u.groups
    {
      var kept := Compact(u.groups, u.count, group);
      u' := u.(count := kept);
    }

    /** One turn of the loop over all users: compacts that user's array and no other's. */
    method RemoveFrom(uname: string, group: string)
      requires Valid() && uname in users
      modifies this`users, this`accounts, owner.Keys
      ensures Valid() && users.Keys == old(users.Keys)
      ensures accounts == old(accounts)[uname := LeaveGroup(old(accounts)[uname], group)]
    {
      var u := Shrink(users[uname], accounts[uname], group);
      users := users[uname := u];
      accounts := accounts[uname := LeaveGroup(accounts[uname], group)];
    }

    /** The loop over all users, in any order. */
    method RemoveFromAll(group: string)
      requires Valid()
      modifies this`users, this`accounts, owner.Keys
      ensures Valid()
      ensures accounts == LeaveGroupAll(old(accounts), group)
    {
      var todo := users.Keys;
      while todo != {}
        invariant Valid() && todo <= users.Keys == old(users.Keys)
        invariant forall u :: u in users ==>
          accounts[u] == (if u in todo then old(accounts)[u] else LeaveGroup(old(accounts)[u], group))
        decreases todo
      {
        var uname :| uname in todo;
        RemoveFrom(uname, group);
        todo := todo - {uname};
      }
    }

    method DeleteGroup(name: string) returns (status: Status)
      requires Valid()
      modifies this`users, this`accounts, this`groups, owner.Keys
      ensures Valid()
      ensures (Abs(), status) == Accounts.DeleteGroup(old(Abs()), name)
    {
      if name !in groups {
        return NotFound;
      }
      groups := groups - {name};
      RemoveFromAll(name);
      status := Done;
    }

    // ---- logins, sessions and guards ----

    method ProvisionLDAP(name: string, defaults: seq<string>) returns (role: Role)
      requires Valid()
      modifies this`users, this`accounts, this`owner
      ensures Valid() && OwnsFresh()
      ensures Abs() == Accounts.ProvisionLDAP(old(Abs()), name, defaults)
      ensures name in accounts && role == accounts[name].role
    {
      if name in users && users[name].source == LDAP {
        return users[name].role;
      }
      Put(name, "", "", Member, defaults, LDAP);
      role := Member;
    }

    method ProvisionIMAP(name: string, auto: bool, defaults: seq<string>) returns (status: Status, role: Role)
      requires Valid()
      modifies this`users, this`accounts, this`owner
      ensures Valid() && OwnsFresh()
      ensures (Abs(), status) == Accounts.ProvisionIMAP(old(Abs()), name, auto, defaults)
      ensures status == Done ==> name in accounts && role == accounts[name].role
    {
      if name in users && users[name].source == IMAP {
        return Done, users[name].role;
      }
      if !auto {
        return Pending, Member;
      }
      Put(name, "", "", Member, defaults, IMAP);
      return Done, Member;
    }

    method OpenSession(tok: string, name: string, role: Role, now: int)
      requires Valid()
      modifies this`sessions
      ensures Valid()
      ensures Abs() == Accounts.OpenSession(old(Abs()), tok, name, role, now + ttl)
    {
      sessions := sessions[tok := Session(name, role, now + ttl)];
    }

    method Fallback(name: string, e: L.World) returns (outcome: L.Outcome, role: Role)
      requires Valid()
      modifies this`users, this`accounts, this`owner
      ensures Valid() && OwnsFresh()
      ensures (Abs(), outcome) == L.Fallback(old(Abs()), name, e)
      ensures outcome.LoggedIn? ==> name in accounts && role == accounts[name].role
    {
      if e.ldapOn && e.ldapAccepts {
        role := ProvisionLDAP(name, e.ldapDefaults);
        return L.LoggedIn(LDAP), role;
      }
      if e.imapOn && e.imapAccepts {
        var status;
        status, role := ProvisionIMAP(name, e.auto, e.imapDefaults);
        return if status == Pending then L.Unapproved else L.LoggedIn(IMAP), role;
      }
      return L.Rejected, Member;
    }

    /** A login whose steps nothing interleaves. */
    method Login(name: string, password: string, e: L.World, tok: string, now: int) returns (outcome: L.Outcome)
      requires Valid()
      modifies this`users, this`accounts, this`owner, this`sessions
      ensures Valid() && OwnsFresh()
      ensures (Abs(), outcome) == L.Login(hasher, old(Abs()), name, password, e, tok, now + ttl)
      ensures outcome.LoggedIn? ==> name in accounts && sessions == old(sessions)[tok := Session(name, accounts[name].role, now + ttl)]
      ensures !outcome.LoggedIn? ==> sessions == old(sessions)
    {
      if name == "" || password == "" {
        return L.Malformed;
      }
      var exists_, external, ok, role := Verify(name, password);
      var canFallback := !exists_ || external;
      outcome := if ok then L.LoggedIn(Local) else L.Rejected;
      if !ok && canFallback {
        outcome, role := Fallback(name, e);
      }
      if !outcome.LoggedIn? {
        return;
      }
      OpenSession(tok, name, role, now);
    }

    method Logout(tok: string) returns (existed: bool)
      requires Valid()
      modifies this`sessions
      ensures Valid() && existed == (tok in old(sessions))
      ensures Abs() == Accounts.Logout(old(Abs()), tok)
    {
      existed := tok in sessions;
      sessions := sessions - {tok};
    }

    method RequireAuth(tok: string, now: int) returns (user: Option<string>)
      requires Valid()
      modifies this`sessions
      ensures Valid()
      ensures (Abs(), user) == Authenticate(old(Abs()), tok, now)
    {
      if tok !in sessions {
        return None;
      }
      var sess := sessions[tok];
      if now > sess.expires {
        sessions := sessions - {tok};
        return None;
      }
      user := Some(sess.username);
    }

    method RequirePerm(name: string, perm: Perm) returns (pass: bool)
      requires Valid()
      ensures pass <==> Grants(Abs(), name, perm)
    {
      var perms := EffectivePerms(name);
      pass := perm in perms;
    }
  }
}
