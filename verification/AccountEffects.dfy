/** What accepted requests do to accounts, groups and sessions, and which requests are accepted:
    each field by itself, and what the users can do afterwards. */
module AccountEffects {
  import opened Common
  import opened Permissions
  import opened Accounts
  import opened AccountRuns

  /** All accounts but one are as before. */
  predicate OthersKept(before: map<string, Account>, after: map<string, Account>, name: string) {
    && (forall u :: u in before && u != name ==> u in after && after[u] == before[u])
    && (forall u :: u in after && u != name ==> u in before)
  }

  // ---- users ----

  /** Creation is accepted exactly for a named user with a password, a known role and a free name,
      and stores that user and nothing else: members start in the users group, administrators in
      none. */
  lemma CreateUserExactly(h: Hasher, s: State, name: string, password: string, role: Role, salt: string)
    ensures var (s', status) := CreateUser(h, s, name, password, role, salt);
            && (status == Done <==> name != "" && password != "" && (role.Admin? || role.Member?) && name !in s.users)
            && (status == Conflict <==> name != "" && password != "" && (role.Admin? || role.Member?) && name in s.users)
            && (status != Done && status != Conflict ==> status == BadRequest)
            && (status != Done ==> s' == s)
            && (status == Done ==>
                  && name in s'.users && s'.users[name].role == role && s'.users[name].source == Untagged
                  && s'.users[name].hash == h(salt, password) && s'.users[name].salt == salt
                  && s'.users[name].groups == (if role.Member? then ["users"] else [])
                  && OthersKept(s.users, s'.users, name) && s'.groups == s.groups && s'.sessions == s.sessions)
  {
  }

  /** So a new member may do what the users group may, and a new administrator everything. */
  lemma CreatedUserMay(h: Hasher, s: State, name: string, password: string, role: Role, salt: string, p: Perm)
    requires CreateUser(h, s, name, password, role, salt).1 == Done
    ensures var s' := CreateUser(h, s, name, password, role, salt).0;
            p in EffectivePerms(s', name) <==>
            if role.Member? then "users" in s.groups && p in s.groups["users"]
            else p == Download || p == Audit || p == Users || p == Groups
  {
    CreateUserExactly(h, s, name, password, role, salt);
  }

  /** An update is accepted exactly when the role is known, the user exists, no password is set for
      an external account, every named group exists, and the last administrator stays one. */
  predicate MayUpdate(s: State, name: string, c: Change) {
    && (c.role.Some? ==> c.role.value.Admin? || c.role.value.Member?)
    && name in s.users
    && (c.password.Some? && c.password.value != "" ==> s.users[name].source != LDAP && s.users[name].source != IMAP)
    && (c.groups.Some? ==> forall g :: g in c.groups.value ==> g in s.groups)
    && (c.role.Some? && s.users[name].role.Admin? && !c.role.value.Admin? ==> exists other :: other in s.users && other != name && s.users[other].role.Admin?)
  }

  lemma OtherAdmin(s: State, name: string)
    requires name in s.users && s.users[name].role.Admin?
    ensures |Admins(s.users)| <= 1 <==> !exists other :: other in s.users && other != name && s.users[other].role.Admin?
  {
    var a := Admins(s.users);
    assert name in a;
    if other :| other in s.users && other != name && s.users[other].role.Admin? {
      assert other in a - {name};
      assert |a - {name}| == |a| - 1;
    } else {
      assert a == {name};
    }
  }

  /** Each field of an accepted update takes effect, a field left out changes nothing, and neither
      does a refused request. */
  lemma UpdateUserExactly(h: Hasher, s: State, name: string, c: Change, salt: string)
    ensures var (s', status) := UpdateUser(h, s, name, c, salt);
            && (status == Done <==> MayUpdate(s, name, c))
            && (status == NotFound <==> (c.role.Some? ==> c.role.value.Admin? || c.role.value.Member?) && name !in s.users)
            && (status == Conflict ==> name in s.users && s.users[name].role.Admin? && c.role == Some(Member))
            && (status != Done ==> s' == s)
            && (status == Done ==>
                  && name in s'.users
                  && s'.users[name].role == (if c.role.Some? then c.role.value else s.users[name].role)
                  && s'.users[name].groups == (if c.groups.Some? then c.groups.value else s.users[name].groups)
                  && s'.users[name].hash ==
                     (if c.password.Some? && c.password.value != "" then h(salt, c.password.value) else s.users[name].hash)
                  && s'.users[name].salt == (if c.password.Some? && c.password.value != "" then salt else s.users[name].salt)
                  && s'.users[name].source == s.users[name].source
                  && OthersKept(s.users, s'.users, name) && s'.groups == s.groups && s'.sessions == s.sessions)
  {
    if name in s.users && s.users[name].role.Admin? {
      OtherAdmin(s, name);
    }
  }

  /** So a demoted administrator is left with what the groups of its list grant. */
  lemma DemotionTakesEffect(h: Hasher, s: State, name: string, c: Change, salt: string, p: Perm)
    requires UpdateUser(h, s, name, c, salt).1 == Done && c.role == Some(Member)
    ensures var s' := UpdateUser(h, s, name, c, salt).0;
            var list := if c.groups.Some? then c.groups.value else s.users[name].groups;
            p in EffectivePerms(s', name) <==> exists g :: g in list && g in s.groups && p in s.groups[g]
  {
    UpdateUserExactly(h, s, name, c, salt);
  }

  /** Deletion is accepted exactly for a user that is not the only administrator, and takes that
      user and its sessions, and nothing else. */
  lemma DeleteUserExactly(s: State, name: string)
    ensures var (s', status) := DeleteUser(s, name);
            && (status == Done <==>
                  name in s.users
                  && (s.users[name].role.Admin? ==> exists other :: other in s.users && other != name && s.users[other].role.Admin?))
            && (status == NotFound <==> name !in s.users)
            && (status != Done && status != NotFound ==> status == Conflict)
            && (status != Done ==> s' == s)
            && (status == Done ==>
                  && name !in s'.users && OthersKept(s.users, s'.users, name) && s'.groups == s.groups
                  && (forall t :: t in s'.sessions <==> t in s.sessions && s.sessions[t].username != name)
                  && (forall t :: t in s'.sessions ==> s'.sessions[t] == s.sessions[t]))
  {
    if name in s.users && s.users[name].role.Admin? {
      OtherAdmin(s, name);
    }
  }

  lemma AdministratorIsListedAll(s: State, name: string)
    requires name in s.users && s.users[name].role.Admin?
    ensures Listed(VALID_PERMS, EffectivePerms(s, name)) == [Download, Audit, Users, Groups]
  {
    var all := EffectivePerms(s, name);
    ListedSnoc([], Download, all);
    ListedSnoc([Download], Audit, all);
    ListedSnoc([Download, Audit], Users, all);
    ListedSnoc([Download, Audit, Users], Groups, all);
    assert [] + [Download] == [Download] && [Download] + [Audit] == [Download, Audit];
    assert [Download, Audit] + [Users] == [Download, Audit, Users];
    assert VALID_PERMS == [Download, Audit, Users] + [Groups];
    assert Download in all && Audit in all && Users in all && Groups in all;
  }

  lemma ListedSnoc(front: seq<Perm>, p: Perm, perms: set<Perm>)
    ensures Listed(front + [p], perms) == Listed(front, perms) + if p in perms then [p] else []
  {
    assert (front + [p])[..|front|] == front;
  }

  // ---- groups ----

  /** The list of a group holds exactly the permissions asked for, each once. */
  ghost predicate Holds(list: seq<Perm>, perms: seq<Perm>) {
    NoDuplicates(list) && forall p :: p in list <==> p in perms
  }

  predicate Known(perms: seq<Perm>) {
    forall p :: p in perms ==> p == Download || p == Audit || p == Users || p == Groups
  }

  predicate OtherGroupsKept(before: map<string, seq<Perm>>, after: map<string, seq<Perm>>, name: string) {
    && (forall g :: g in before && g != name ==> g in after && after[g] == before[g])
    && (forall g :: g in after && g != name ==> g in before)
  }

  lemma KnownIsValid(perms: seq<Perm>)
    ensures Known(perms) <==> forall p :: p in perms ==> IsValid(p)
  {
  }

  lemma CreateGroupExactly(s: State, name: string, perms: seq<Perm>)
    ensures var (s', status) := CreateGroup(s, name, perms);
            && (status == Done <==> name != "" && Known(perms) && name !in s.groups)
            && (status == Conflict <==> name != "" && Known(perms) && name in s.groups)
            && (status != Done && status != Conflict ==> status == BadRequest)
            && (status != Done ==> s' == s)
            && (status == Done ==>
                  && name in s'.groups && Holds(s'.groups[name], perms)
                  && OtherGroupsKept(s.groups, s'.groups, name) && s'.users == s.users && s'.sessions == s.sessions)
  {
    KnownIsValid(perms);
    FirstOccurrencesFaithful(perms);
  }

  /** An accepted update of a group stores the new list, and nothing else changes. */
  lemma UpdateGroupExactly(s: State, name: string, perms: seq<Perm>)
    ensures var (s', status) := UpdateGroup(s, name, perms);
            && (status == Done <==> Known(perms) && name in s.groups)
            && (status == NotFound <==> Known(perms) && name !in s.groups)
            && (status != Done && status != NotFound ==> status == BadRequest)
            && (status != Done ==> s' == s)
            && (status == Done ==>
                  && name in s'.groups && Holds(s'.groups[name], perms)
                  && OtherGroupsKept(s.groups, s'.groups, name) && s'.users == s.users && s'.sessions == s.sessions)
  {
    KnownIsValid(perms);
    FirstOccurrencesFaithful(perms);
  }

  /** So every member of the group may from then on do what the new list says. */
  lemma GroupUpdateTakesEffect(s: State, group: string, perms: seq<Perm>, name: string, p: Perm)
    requires UpdateGroup(s, group, perms).1 == Done && name in s.users && !s.users[name].role.Admin?
    requires s.users[name].groups == [group]
    ensures p in EffectivePerms(UpdateGroup(s, group, perms).0, name) <==> p in perms
  {
    UpdateGroupExactly(s, group, perms);
    assert group in s.users[name].groups;
  }

  // ---- sessions ----

  /** Logging out closes the one session, and an expired session goes alone. */
  lemma SessionsCloseAlone(s: State, tok: string, now: int)
    ensures var s' := Logout(s, tok);
            tok !in s'.sessions && s'.users == s.users && s'.groups == s.groups
            && (forall t :: t != tok ==> (t in s'.sessions <==> t in s.sessions))
            && (forall t :: t in s'.sessions ==> s'.sessions[t] == s.sessions[t])
    ensures var s' := Authenticate(s, tok, now).0;
            s'.users == s.users && s'.groups == s.groups
            && (tok in s'.sessions <==> tok in s.sessions && now <= s.sessions[tok].expires)
            && (forall t :: t != tok ==> (t in s'.sessions <==> t in s.sessions))
            && (forall t :: t in s'.sessions ==> s'.sessions[t] == s.sessions[t])
  {
  }

  // ---- start-up ----

  /** The configured user of a name that counts: the last one with both a name and a password. */
  predicate Configured(seeds: seq<Seed>, i: int, name: string) {
    && 0 <= i < |seeds|
    && seeds[i].username == name && name != "" && seeds[i].password != ""
    && forall j :: i < j < |seeds| ==> seeds[j].username != name || seeds[j].password == ""
  }

  lemma ConfiguredSnoc(front: seq<Seed>, u: Seed, i: int, name: string)
    ensures 0 <= i < |front| ==>
      (Configured(front + [u], i, name) <==> Configured(front, i, name) && (u.username != name || u.password == ""))
    ensures Configured(front + [u], |front|, name) <==> u.username == name && name != "" && u.password != ""
  {
    var seeds := front + [u];
    assert forall j :: 0 <= j < |front| ==> seeds[j] == front[j];
    assert seeds[|front|] == u;
  }

  /** At start-up there is exactly one account for each configured user, with its password, local,
      and a member in the users group unless it is configured as an administrator. */
  function SeedAccount(h: Hasher, u: Seed): Account {
    Account(h(u.salt, u.password), u.salt, if u.role.Admin? then Role.Admin else Member,
            if u.role.Admin? then [] else ["users"], Local)
  }

  lemma SeededSnoc(h: Hasher, front: seq<Seed>, u: Seed)
    ensures Seeded(h, front + [u]) ==
            if u.username == "" || u.password == "" then Seeded(h, front)
            else Seeded(h, front)[u.username := SeedAccount(h, u)]
  {
    assert (front + [u])[..|front|] == front;
  }

  lemma {:induction false} StartUp(h: Hasher, seeds: seq<Seed>, name: string)
    ensures name in Seeded(h, seeds) <==> exists i :: Configured(seeds, i, name)
    ensures forall i :: Configured(seeds, i, name) && name in Seeded(h, seeds) ==>
      Seeded(h, seeds)[name] == SeedAccount(h, seeds[i])
  {
    if seeds == [] {
    } else {
      var front, u := seeds[..|seeds| - 1], seeds[|seeds| - 1];
      assert seeds == front + [u];
      StartUp(h, front, name);
      SeededSnoc(h, front, u);
      forall i
        ensures 0 <= i < |front| ==>
          seeds[i] == front[i] && (Configured(seeds, i, name) <==> Configured(front, i, name) && (u.username != name || u.password == ""))
        ensures Configured(seeds, |front|, name) <==> u.username == name && name != "" && u.password != ""
      {
        ConfiguredSnoc(front, u, i, name);
      }
      if u.username == name && name != "" && u.password != "" {
        assert Configured(seeds, |front|, name);
      } else if i :| Configured(front, i, name) {
        assert Configured(seeds, i, name);
      }
    }
  }

  /** A configured member starts with the download permission alone, an administrator with all four. */
  lemma StartUpMay(h: Hasher, seeds: seq<Seed>, i: int, name: string, p: Perm)
    requires Configured(seeds, i, name)
    ensures p in EffectivePerms(Initial(h, seeds), name) <==>
            p == Download || (seeds[i].role.Admin? && (p == Audit || p == Users || p == Groups))
    ensures Initial(h, seeds).sessions == map[]
  {
    StartUp(h, seeds, name);
    EffectiveIsGranted(Initial(h, seeds), name, p);
    if !seeds[i].role.Admin? {
      assert Initial(h, seeds).users[name].groups == ["users"];
      assert "users" in ["users"];
      assert "users" in Initial(h, seeds).groups;
      assert Initial(h, seeds).groups["users"] == [Download];
    }
  }
}
