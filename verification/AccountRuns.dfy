/** Guarantees about accounts, groups and sessions over every run of the server. A step may
    interleave with any others: provisioning an account and opening a session are steps of
    their own, so a run covers every interleaving of concurrent logins. */
module AccountRuns {
  import opened Common
  import opened Permissions
  import opened Accounts

  // ---- what every reachable state satisfies ----

  /** An account has no digest exactly when it comes from an external directory. */
  predicate CredentialsMatch(users: map<string, Account>) {
    forall name :: name in users ==> (users[name].hash == "" <==> External(users[name].source))
  }

  /** Every group holds a clean permission list. */
  ghost predicate GroupsClean(groups: map<string, seq<Perm>>) {
    forall g :: g in groups ==> Clean(groups[g])
  }

  ghost predicate Sound(s: State) {
    CredentialsMatch(s.users) && GroupsClean(s.groups)
  }

  lemma {:induction false} SeededMatch(h: Hasher, seeds: seq<Seed>)
    ensures CredentialsMatch(Seeded(h, seeds))
  {
    if seeds == [] {
    } else {
      SeededMatch(h, seeds[..|seeds| - 1]);
    }
  }

  lemma StepKeepsCredentials(h: Hasher, s: State, op: Op)
    requires CredentialsMatch(s.users)
    ensures CredentialsMatch(Step(h, s, op).users)
  {
  }

  /** Defining or redefining a group by a normalized list. */
  lemma DefineKeepsClean(groups: map<string, seq<Perm>>, group: string, perms: seq<Perm>)
    requires GroupsClean(groups) && AllValid(perms)
    ensures GroupsClean(groups[group := FirstOccurrences(perms)])
  {
    NormalizingTwice(perms);
  }

  /** All that a step can do to the groups. */
  lemma GroupsAfter(h: Hasher, s: State, op: Op)
    ensures var groups := Step(h, s, op).groups;
            || groups == s.groups
            || (op.DoDeleteGroup? && groups == s.groups - {op.group})
            || ((op.DoCreateGroup? || op.DoUpdateGroup?) && AllValid(op.perms)
                && groups == s.groups[op.group := FirstOccurrences(op.perms)])
  {
  }

  lemma StepKeepsGroupsClean(h: Hasher, s: State, op: Op)
    requires GroupsClean(s.groups)
    ensures GroupsClean(Step(h, s, op).groups)
  {
    var groups := Step(h, s, op).groups;
    GroupsAfter(h, s, op);
    if (op.DoCreateGroup? || op.DoUpdateGroup?) && groups != s.groups {
      DefineKeepsClean(s.groups, op.group, op.perms);
    }
  }

  lemma StepSound(h: Hasher, s: State, op: Op)
    requires Sound(s)
    ensures Sound(Step(h, s, op))
  {
    StepKeepsCredentials(h, s, op);
    StepKeepsGroupsClean(h, s, op);
  }

  /** In every reachable state, under any interleaving, accounts keep their credential kind
      and groups keep clean permission lists. */
  lemma {:induction false} RunSound(h: Hasher, seeds: seq<Seed>, w: seq<Op>)
    ensures Sound(Run(h, Initial(h, seeds), w))
    decreases w
  {
    if w == [] {
      SeededMatch(h, seeds);
    } else {
      RunSound(h, seeds, w[..|w| - 1]);
      StepSound(h, Run(h, Initial(h, seeds), w[..|w| - 1]), w[|w| - 1]);
    }
  }

  /** So no password is ever accepted for an external account, whatever it is. */
  lemma NoPasswordForExternal(h: Hasher, seeds: seq<Seed>, w: seq<Op>, name: string, password: string)
    ensures var s := Run(h, Initial(h, seeds), w);
            Verify(h, s, name, password).1 ==> name in s.users && !External(s.users[name].source)
  {
    RunSound(h, seeds, w);
  }

  /** And an external account is never given one: the source of an account that stays changes
      only when it is provisioned anew, which leaves it without a digest and without a role. */
  lemma SourceChanges(h: Hasher, s: State, op: Op, name: string)
    requires name in s.users && name in Step(h, s, op).users
    requires Step(h, s, op).users[name].source != s.users[name].source
    ensures (op.DoProvisionLDAP? || op.DoProvisionIMAP?) && op.name == name
    ensures Step(h, s, op).users[name].hash == "" && Step(h, s, op).users[name].role == Member
  {
  }

  // ---- permissions ----

  /** The set of effective permissions is the one the live users and groups grant. */
  lemma EffectiveIsGranted(s: State, name: string, p: Perm)
    ensures p in EffectivePerms(s, name) <==> Grants(s, name, p)
  {
  }

  lemma {:induction false} ListedFaithful(order: seq<Perm>, perms: set<Perm>)
    requires NoDuplicates(order)
    ensures forall p :: p in Listed(order, perms) <==> p in order && p in perms
    ensures NoDuplicates(Listed(order, perms))
  {
    if order == [] {
    } else {
      ListedFaithful(order[..|order| - 1], perms);
      assert order == order[..|order| - 1] + [order[|order| - 1]];
    }
  }

  /** A listing is the fixed order with the missing permissions left out. */
  lemma {:induction false} ListedInOrder(order: seq<Perm>, perms: set<Perm>, i: nat, j: nat)
    requires i < j < |Listed(order, perms)|
    ensures exists a, b :: 0 <= a < b < |order| && order[a] == Listed(order, perms)[i] && order[b] == Listed(order, perms)[j]
  {
    var front := order[..|order| - 1];
    var fl := Listed(front, perms);
    if j < |fl| {
      ListedInOrder(front, perms, i, j);
      var a, b :| 0 <= a < b < |front| && front[a] == fl[i] && front[b] == fl[j];
      assert order[a] == front[a] && order[b] == front[b];
    } else {
      ListedFrom(front, perms, i);
      var a :| 0 <= a < |front| && front[a] == fl[i];
      assert order[a] == front[a] && order[|order| - 1] == Listed(order, perms)[j];
    }
  }

  lemma {:induction false} ListedFrom(order: seq<Perm>, perms: set<Perm>, i: nat)
    requires i < |Listed(order, perms)|
    ensures exists a :: 0 <= a < |order| && order[a] == Listed(order, perms)[i]
  {
    var front := order[..|order| - 1];
    var fl := Listed(front, perms);
    if i < |fl| {
      ListedFrom(front, perms, i);
      var a :| 0 <= a < |front| && front[a] == fl[i];
      assert order[a] == front[a];
    } else {
      assert order[|order| - 1] == Listed(order, perms)[i];
    }
  }

  /** In every reachable state the permission list of a user is lossless: it enumerates exactly
      the effective permissions, each once. */
  lemma PermissionListLossless(h: Hasher, seeds: seq<Seed>, w: seq<Op>, name: string)
    ensures var s := Run(h, Initial(h, seeds), w);
            var list := Listed(VALID_PERMS, EffectivePerms(s, name));
            && (forall p :: p in list <==> p in EffectivePerms(s, name))
            && NoDuplicates(list)
            && |list| == |EffectivePerms(s, name)|
  {
    RunSound(h, seeds, w);
    var s := Run(h, Initial(h, seeds), w);
    var list := Listed(VALID_PERMS, EffectivePerms(s, name));
    ListedFaithful(VALID_PERMS, EffectivePerms(s, name));
    forall p | p in EffectivePerms(s, name)
      ensures IsValid(p)
    {
      EffectiveIsGranted(s, name, p);
      if s.users[name].role != Admin {
        var g :| g in s.users[name].groups && g in s.groups && p in s.groups[g];
        assert Clean(s.groups[g]);
      }
    }
    SizeOf(list);
    assert (set p | p in list) == EffectivePerms(s, name);
  }

  lemma {:induction false} SizeOf<T>(list: seq<T>)
    requires NoDuplicates(list)
    ensures |set p | p in list| == |list|
  {
    if list == [] {
    } else {
      var front, last := list[..|list| - 1], list[|list| - 1];
      SizeOf(front);
      assert list == front + [last];
      assert last !in front;
      assert (set p | p in list) == (set p | p in front) + {last};
    }
  }

  // ---- deleting a group ----

  /** Removal distributes over concatenation, so it keeps order and multiplicity. */
  lemma {:induction false} WithoutConcat(a: seq<string>, b: seq<string>, name: string)
    ensures Without(a + b, name) == Without(a, name) + Without(b, name)
  {
    if b == [] {
      assert a + b == a;
    } else {
      var front, g := b[..|b| - 1], b[|b| - 1];
      WithoutConcat(a, front, name);
      assert (a + b)[..|a + b| - 1] == a + front;
    }
  }

  lemma WithoutLast(front: seq<string>, g: string, name: string)
    ensures Without(front + [g], name) == Without(front, name) + if g != name then [g] else []
  {
    assert (front + [g])[..|front|] == front;
  }

  lemma CountWithout(m: multiset<string>, g: string, name: string)
    ensures (m + multiset{g})[name := 0] == if g != name then m[name := 0] + multiset{g} else m[name := 0]
  {
  }

  lemma {:induction false} WithoutCounts(gs: seq<string>, name: string)
    ensures multiset(Without(gs, name)) == multiset(gs)[name := 0]
  {
    if gs == [] {
    } else {
      var front, g := gs[..|gs| - 1], gs[|gs| - 1];
      WithoutCounts(front, name);
      assert gs == front + [g];
      WithoutLast(front, g, name);
      CountWithout(multiset(front), g, name);
      assert multiset(Without(gs, name)) == multiset(Without(front, name)) + multiset(if g != name then [g] else []);
    }
  }

  lemma WithoutMembers(gs: seq<string>, name: string)
    ensures forall g :: g in Without(gs, name) <==> g in gs && g != name
  {
    WithoutCounts(gs, name);
    forall g
      ensures g in Without(gs, name) <==> g in gs && g != name
    {
      assert multiset(Without(gs, name))[g] == multiset(gs)[name := 0][g];
    }
  }

  /** Deleting a group gives nobody a permission, leaves every admin's alone, and leaves a
      member exactly the union over the groups that remain. */
  lemma DeleteGroupEffect(s: State, group: string, name: string, p: Perm)
    requires group in s.groups
    ensures var s' := DeleteGroup(s, group).0;
            && (p in EffectivePerms(s', name) ==> p in EffectivePerms(s, name))
            && (name in s.users && s.users[name].role == Admin ==> EffectivePerms(s', name) == EffectivePerms(s, name))
            && (name in s.users && s.users[name].role != Admin ==>
                  (p in EffectivePerms(s', name) <==>
                    exists g :: g in s.users[name].groups && g != group && g in s.groups && p in s.groups[g]))
  {
    if name in s.users {
      WithoutMembers(s.users[name].groups, group);
    }
    EffectiveIsGranted(s, name, p);
    EffectiveIsGranted(DeleteGroup(s, group).0, name, p);
  }

  // ---- the admin floor ----

  /** The step replaces the account of the only administrator by an external member. */
  predicate TakesOverLastAdmin(s: State, op: Op) {
    match op
    case DoProvisionLDAP(name, _) => Admins(s.users) == {name} && s.users[name].source != LDAP
    case DoProvisionIMAP(name, auto, _) => auto && Admins(s.users) == {name} && s.users[name].source != IMAP
    case _ => false
  }

  lemma OneOfTwo(a: set<string>, name: string)
    requires name in a && |a| > 1
    ensures a - {name} != {}
  {
    assert |a - {name}| == |a| - 1;
  }

  /** A step can lose the last administrator in exactly one way. */
  lemma StepKeepsAdmin(h: Hasher, s: State, op: Op)
    requires Admins(s.users) != {}
    ensures Admins(Step(h, s, op).users) == {} <==> TakesOverLastAdmin(s, op)
  {
    var a, s' := Admins(s.users), Step(h, s, op);
    var some :| some in a;
    match op
    case DoCreateUser(name, _, _, _) => assert some in Admins(s'.users);
    case DoUpdateUser(name, _, _) => UpdateKeepsAdmin(h, s, op);
    case DoDeleteUser(name) =>
      if s' != s && name in a {
        OneOfTwo(a, name);
        assert Admins(s'.users) == a - {name};
      } else {
        assert some in Admins(s'.users);
      }
    case DoProvisionLDAP(name, defaults) => ProvisionKeepsAdmin(s, name, LDAP, defaults);
    case DoProvisionIMAP(name, auto, defaults) => ProvisionKeepsAdmin(s, name, IMAP, defaults);
    case _ => assert some in Admins(s'.users);
  }

  lemma UpdateKeepsAdmin(h: Hasher, s: State, op: Op)
    requires Admins(s.users) != {} && op.DoUpdateUser?
    ensures Admins(Step(h, s, op).users) != {}
  {
    var a, s' := Admins(s.users), Step(h, s, op);
    var some :| some in a;
    if s' != s && op.name in a && s'.users[op.name].role != Admin {
      OneOfTwo(a, op.name);
      var other :| other in a - {op.name};
      assert other in Admins(s'.users);
    } else {
      assert some in Admins(s'.users);
    }
  }

  lemma ProvisionKeepsAdmin(s: State, name: string, src: Source, defaults: seq<string>)
    requires Admins(s.users) != {}
    ensures Admins(Provision(s, name, src, defaults).users) == {} <==>
            Admins(s.users) == {name} && s.users[name].source != src
  {
    var a, s' := Admins(s.users), Provision(s, name, src, defaults);
    if name in s.users && s.users[name].source == src {
    } else {
      assert Admins(s'.users) == a - {name};
      var some :| some in a;
      if a == {name} {
        assert a - {name} == {};
      } else {
        assert a - {name} == {} ==> a <= {name};
      }
    }
  }

  /** No step of the run takes over the last administrator. */
  predicate NoTakeover(h: Hasher, s: State, w: seq<Op>) {
    w != [] ==> NoTakeover(h, s, w[..|w| - 1]) && !TakesOverLastAdmin(Run(h, s, w[..|w| - 1]), w[|w| - 1])
  }

  /** The admin floor: a server with an administrator always has one, in every run whose logins
      never re-provision the last one from another source. */
  lemma {:induction false} AdminFloor(h: Hasher, s: State, w: seq<Op>)
    requires Admins(s.users) != {} && NoTakeover(h, s, w)
    ensures Admins(Run(h, s, w).users) != {}
    decreases w
  {
    if w == [] {
    } else {
      AdminFloor(h, s, w[..|w| - 1]);
      StepKeepsAdmin(h, Run(h, s, w[..|w| - 1]), w[|w| - 1]);
    }
  }

  // ---- guards ----

  /** RequireAuth in one state, RequirePerm in a later one. */
  predicate Admits(s1: State, s2: State, tok: string, now: int, p: Perm) {
    var user := Authenticate(s1, tok, now).1;
    user.Some? && p in EffectivePerms(s2, user.value)
  }

  /** A guarded request passes exactly when its session is live at the first guard and the users
      and groups of the second grant the permission; the role stored in the session plays no part. */
  lemma GuardFollowsLiveState(s1: State, s2: State, tok: string, now: int, p: Perm)
    ensures Admits(s1, s2, tok, now, p) <==>
            tok in s1.sessions && now <= s1.sessions[tok].expires && Grants(s2, s1.sessions[tok].username, p)
  {
    if tok in s1.sessions {
      EffectiveIsGranted(s2, s1.sessions[tok].username, p);
    }
  }

  /** The run neither creates nor provisions the user again. */
  predicate NoRevival(w: seq<Op>, x: string) {
    forall i :: 0 <= i < |w| ==>
      !((w[i].DoCreateUser? || w[i].DoProvisionLDAP? || w[i].DoProvisionIMAP?) && w[i].name == x)
  }

  lemma {:induction false} StaysDeleted(h: Hasher, s: State, w: seq<Op>, x: string)
    requires x !in s.users && NoRevival(w, x)
    ensures x !in Run(h, s, w).users
    decreases w
  {
    if w == [] {
    } else {
      StaysDeleted(h, s, w[..|w| - 1], x);
    }
  }

  /** After a user is deleted, no session for that user passes a permission guard, not even one
      that a login still in flight opens later, until the user is created or provisioned again. */
  lemma DeletedUserIsShutOut(h: Hasher, s: State, x: string, w: seq<Op>, s1: State, tok: string, now: int, p: Perm)
    requires DeleteUser(s, x).1 == Done && NoRevival(w, x)
    requires Authenticate(s1, tok, now).1 == Some(x)
    ensures !Admits(s1, Run(h, DeleteUser(s, x).0, w), tok, now, p)
  {
    StaysDeleted(h, DeleteUser(s, x).0, w, x);
  }

  /** The run opens no session under the token. */
  predicate NeverOpens(w: seq<Op>, tok: string) {
    forall i :: 0 <= i < |w| ==> !(w[i].DoOpenSession? && w[i].tok == tok)
  }

  lemma {:induction false} StaysClosed(h: Hasher, s: State, w: seq<Op>, tok: string)
    requires tok !in s.sessions && NeverOpens(w, tok)
    ensures tok !in Run(h, s, w).sessions
    decreases w
  {
    if w == [] {
    } else {
      StaysClosed(h, s, w[..|w| - 1], tok);
    }
  }

  /** A token that was logged out, or that was ever found expired, authenticates nobody again,
      at any time and after any run that does not open it anew. */
  lemma ClosedForGood(h: Hasher, s: State, tok: string, w: seq<Op>, then_: int, now: int)
    requires NeverOpens(w, tok)
    ensures Authenticate(Run(h, Logout(s, tok), w), tok, now).1 == None
    ensures Authenticate(s, tok, then_).1 == None ==>
      Authenticate(Run(h, Authenticate(s, tok, then_).0, w), tok, now).1 == None
  {
    StaysClosed(h, Logout(s, tok), w, tok);
    if Authenticate(s, tok, then_).1 == None {
      StaysClosed(h, Authenticate(s, tok, then_).0, w, tok);
    }
  }

  // ---- credentials and frames ----

  /** A password works as soon as it is set: by creating the user or by an accepted update. */
  lemma SetPasswordIsAccepted(h: Hasher, s: State, name: string, password: string, role: Role, c: Change, salt: string)
    ensures CreateUser(h, s, name, password, role, salt).1 == Done ==>
      Verify(h, CreateUser(h, s, name, password, role, salt).0, name, password).1
    ensures UpdateUser(h, s, name, c, salt).1 == Done && SetsPassword(c) ==>
      Verify(h, UpdateUser(h, s, name, c, salt).0, name, c.password.value).1
  {
    assert h(salt, password) != "";
    if SetsPassword(c) {
      assert h(salt, c.password.value) != "";
    }
  }

  /** What a user may do changes only through a step on that very user or, for a member, a step
      on a group that the user's list names. */
  lemma PermissionsChangeOnlyBy(h: Hasher, s: State, op: Op, name: string)
    requires EffectivePerms(Step(h, s, op), name) != EffectivePerms(s, name)
    ensures
      || ((op.DoCreateUser? || op.DoUpdateUser? || op.DoDeleteUser? || op.DoProvisionLDAP? || op.DoProvisionIMAP?)
          && op.name == name)
      || ((op.DoCreateGroup? || op.DoUpdateGroup? || op.DoDeleteGroup?)
          && name in s.users && s.users[name].role != Admin && op.group in s.users[name].groups)
  {
    if op.DoDeleteGroup? {
      DeleteGroupFrame(s, op.group, name);
    } else if op.DoCreateGroup? || op.DoUpdateGroup? {
      GroupEditFrame(s, Step(h, s, op), op.group, name);
    }
  }

  lemma DeleteGroupFrame(s: State, group: string, name: string)
    ensures name !in s.users || s.users[name].role == Admin || group !in s.users[name].groups ==>
      EffectivePerms(DeleteGroup(s, group).0, name) == EffectivePerms(s, name)
  {
    if group in s.groups && name in s.users && group !in s.users[name].groups {
      forall p
        ensures p in EffectivePerms(DeleteGroup(s, group).0, name) <==> p in EffectivePerms(s, name)
      {
        DeleteGroupEffect(s, group, name, p);
        EffectiveIsGranted(s, name, p);
      }
    }
  }

  /** Redefining a group outside a user's list leaves the user's permissions alone. */
  lemma GroupEditFrame(s: State, s': State, group: string, name: string)
    requires s'.users == s.users
    requires forall g :: g != group ==> (g in s'.groups <==> g in s.groups) && (g in s.groups ==> s'.groups[g] == s.groups[g])
    ensures name !in s.users || s.users[name].role == Admin || group !in s.users[name].groups ==>
      EffectivePerms(s', name) == EffectivePerms(s, name)
  {
    if name in s.users && s.users[name].role != Admin && group !in s.users[name].groups {
      forall p
        ensures p in EffectivePerms(s', name) <==> p in EffectivePerms(s, name)
      {
        EffectiveIsGranted(s, name, p);
        EffectiveIsGranted(s', name, p);
      }
    }
  }

  // ---- what a list may name, and what deleting undoes ----

  /** The group names a step may put on a list without looking them up: creating a member adds
      the users group, provisioning adds the configured defaults. */
  function Brought(op: Op): set<string> {
    match op
    case DoCreateUser(_, _, role, _) => if role == Admin then {} else {USERS_GROUP}
    case DoProvisionLDAP(_, defaults) => set g | g in defaults
    case DoProvisionIMAP(_, _, defaults) => set g | g in defaults
    case _ => {}
  }

  function BroughtIn(w: seq<Op>): set<string> {
    if w == [] then {} else BroughtIn(w[..|w| - 1]) + Brought(w[|w| - 1])
  }

  /** Every name on a user's list is that of a group or one of the given names. */
  predicate Accounted(s: State, names: set<string>) {
    forall u, g :: u in s.users && g in s.users[u].groups ==> g in s.groups || g in names
  }

  lemma {:induction false} SeededLists(h: Hasher, seeds: seq<Seed>)
    ensures forall u, g :: u in Seeded(h, seeds) && g in Seeded(h, seeds)[u].groups ==> g == USERS_GROUP
  {
    if seeds == [] {
    } else {
      SeededLists(h, seeds[..|seeds| - 1]);
    }
  }

  lemma StepAccounted(h: Hasher, s: State, op: Op, names: set<string>)
    requires Accounted(s, names)
    ensures Accounted(Step(h, s, op), names + Brought(op))
  {
    if op.DoDeleteGroup? && op.group in s.groups {
      forall u, g | u in s.users && g in Without(s.users[u].groups, op.group)
        ensures g in s.users[u].groups && g != op.group
      {
        WithoutMembers(s.users[u].groups, op.group);
      }
    }
  }

  /** Lists may name groups that do not exist, but only names that were never looked up: an
      update or the deletion of a group leaves no other one behind, in any run. */
  lemma {:induction false} MembershipAccounted(h: Hasher, seeds: seq<Seed>, w: seq<Op>)
    ensures Accounted(Run(h, Initial(h, seeds), w), BroughtIn(w))
    decreases w
  {
    if w == [] {
      SeededLists(h, seeds);
    } else {
      MembershipAccounted(h, seeds, w[..|w| - 1]);
      StepAccounted(h, Run(h, Initial(h, seeds), w[..|w| - 1]), w[|w| - 1], BroughtIn(w[..|w| - 1]));
    }
  }

  /** Deleting a user who was just created restores the state, unless sessions opened under the
      name before it existed are still there, which go too, or the new user is an administrator
      and there was none: then the deletion is refused. */
  lemma DeleteUndoesCreate(h: Hasher, s: State, name: string, password: string, role: Role, salt: string)
    requires CreateUser(h, s, name, password, role, salt).1 == Done
    ensures DeleteUser(CreateUser(h, s, name, password, role, salt).0, name) == (s, Done) <==>
            && (forall tok :: tok in s.sessions ==> s.sessions[tok].username != name)
            && (role != Admin || Admins(s.users) != {})
  {
    var s1 := CreateUser(h, s, name, password, role, salt).0;
    if role == Admin {
      assert Admins(s1.users) == Admins(s.users) + {name};
      assert name !in Admins(s.users);
    }
    assert s1.users - {name} == s.users;
    var kept := SessionsOfOthers(s.sessions, name);
    if forall tok :: tok in s.sessions ==> s.sessions[tok].username != name {
      assert kept == s.sessions;
    } else {
      var tok :| tok in s.sessions && s.sessions[tok].username == name;
      assert tok !in kept;
    }
  }

  lemma {:induction false} WithoutAbsent(gs: seq<string>, name: string)
    requires name !in gs
    ensures Without(gs, name) == gs
  {
    if gs == [] {
    } else {
      WithoutAbsent(gs[..|gs| - 1], name);
    }
  }

  /** Deleting a group that was just created restores the state exactly when no list named it. */
  lemma DeleteGroupUndoesCreate(s: State, group: string, perms: seq<Perm>)
    requires CreateGroup(s, group, perms).1 == Done
    ensures DeleteGroup(CreateGroup(s, group, perms).0, group) == (s, Done) <==>
            forall u :: u in s.users ==> group !in s.users[u].groups
  {
    var s2 := DeleteGroup(CreateGroup(s, group, perms).0, group).0;
    assert s2.groups == s.groups;
    forall u | u in s.users
      ensures s2.users[u] == s.users[u] <==> group !in s.users[u].groups
    {
      WithoutMembers(s.users[u].groups, group);
      if group !in s.users[u].groups {
        WithoutAbsent(s.users[u].groups, group);
      }
    }
    if forall u :: u in s.users ==> group !in s.users[u].groups {
      assert s2.users == s.users;
    }
  }
}
