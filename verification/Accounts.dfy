/** Users, groups and sessions on values: the effect of every step the server takes while it
    holds the account mutex. The class Service is proved against these functions, and the
    guarantees over whole runs are proved about them. */
module Accounts {
  import opened Common
  import opened Permissions

  datatype Role = Admin | Member | OtherRole(text: string)

  /** Created users carry no source tag; the seeded ones are tagged local. */
  datatype Source = Untagged | Local | LDAP | IMAP

  datatype Account = Account(hash: string, salt: string, role: Role, groups: seq<string>, source: Source)

  datatype Session = Session(username: string, role: Role, expires: int)

  datatype State = State(
    users: map<string, Account>,
    groups: map<string, seq<Perm>>,
    sessions: map<string, Session>)

  datatype Status = Done | BadRequest | NotFound | Conflict | Pending

  /** Salted hashing of a password; the digest is never empty. */
  type Hasher = h: (string, string) -> string | forall salt, pw :: h(salt, pw) != ""
    witness (salt: string, pw: string) => "digest"

  const USERS_GROUP: string := "users"
  const ADMIN_GROUP: string := "admin"

  predicate External(src: Source) {
    src == LDAP || src == IMAP
  }

  function InitialGroups(role: Role): seq<string> {
    if role == Admin then [] else [USERS_GROUP]
  }

  // ---- start-up ----

  datatype Seed = Seed(username: string, password: string, role: Role, salt: string)

  function Seeded(h: Hasher, seeds: seq<Seed>): map<string, Account> {
    if seeds == [] then map[] else
    var m, u := Seeded(h, seeds[..|seeds| - 1]), seeds[|seeds| - 1];
    if u.username == "" || u.password == "" then m else
    var role := if u.role == Admin then Admin else Member;
    m[u.username := Account(h(u.salt, u.password), u.salt, role, InitialGroups(role), Local)]
  }

  function Initial(h: Hasher, seeds: seq<Seed>): State {
    State(Seeded(h, seeds), map[USERS_GROUP := [Download], ADMIN_GROUP := VALID_PERMS], map[])
  }

  // ---- queries ----

  /** The set of administrators. */
  function Admins(users: map<string, Account>): set<string> {
    set name | name in users && users[name].role == Admin
  }

  /** Whether the current users and groups grant a permission. */
  predicate Grants(s: State, name: string, p: Perm) {
    name in s.users &&
    if s.users[name].role == Admin then IsValid(p)
    else exists g :: g in s.users[name].groups && g in s.groups && p in s.groups[g]
  }

  /** Admins get everything; everyone else the union over their groups, unknown groups skipped. */
  function EffectivePerms(s: State, name: string): set<Perm> {
    if name !in s.users then {}
    else if s.users[name].role == Admin then set p | p in VALID_PERMS
    else set g, p | g in s.users[name].groups && g in s.groups && p in s.groups[g] :: p
  }

  /** The members of VALID_PERMS in a set, in their fixed order. */
  function Listed(order: seq<Perm>, perms: set<Perm>): seq<Perm> {
    if order == [] then [] else
    var front, p := order[..|order| - 1], order[|order| - 1];
    Listed(front, perms) + if p in perms then [p] else []
  }

  /** verify: the account seen, whether it exists, and whether the password is its own. */
  function Verify(h: Hasher, s: State, name: string, password: string): (Option<Account>, bool) {
    if name !in s.users then (None, false)
    else if s.users[name].hash == "" then (Some(s.users[name]), false)
    else (Some(s.users[name]), h(s.users[name].salt, password) == s.users[name].hash)
  }

  // ---- users ----

  function CreateUser(h: Hasher, s: State, name: string, password: string, role: Role, salt: string): (State, Status) {
    if name == "" || password == "" || (role != Admin && role != Member) then (s, BadRequest)
    else if name in s.users then (s, Conflict)
    else (s.(users := s.users[name := Account(h(salt, password), salt, role, InitialGroups(role), Untagged)]), Done)
  }

  /** The three optional fields of an update request. */
  datatype Change = Change(role: Option<Role>, password: Option<string>, groups: Option<seq<string>>)

  predicate SetsPassword(c: Change) {
    c.password.Some? && c.password.value != ""
  }

  function Changed(h: Hasher, u: Account, c: Change, salt: string): Account {
    var u := if c.role.Some? then u.(role := c.role.value) else u;
    var u := if SetsPassword(c) then u.(hash := h(salt, c.password.value), salt := salt) else u;
    if c.groups.Some? then u.(groups := c.groups.value) else u
  }

  function UpdateUser(h: Hasher, s: State, name: string, c: Change, salt: string): (State, Status) {
    if c.role.Some? && c.role.value != Admin && c.role.value != Member then (s, BadRequest)
    else if name !in s.users then (s, NotFound)
    else if External(s.users[name].source) && SetsPassword(c) then (s, BadRequest)
    else if c.groups.Some? && exists g :: g in c.groups.value && g !in s.groups then (s, BadRequest)
    else if c.role.Some? && s.users[name].role == Admin && c.role.value != Admin && |Admins(s.users)| <= 1 then (s, Conflict)
    else (s.(users := s.users[name := Changed(h, s.users[name], c, salt)]), Done)
  }

  /** The sessions of everybody else. */
  function SessionsOfOthers(sessions: map<string, Session>, name: string): map<string, Session> {
    map tok | tok in sessions && sessions[tok].username != name :: sessions[tok]
  }

  function DeleteUser(s: State, name: string): (State, Status) {
    if name !in s.users then (s, NotFound)
    else if s.users[name].role == Admin && |Admins(s.users)| <= 1 then (s, Conflict)
    else (s.(users := s.users - {name}, sessions := SessionsOfOthers(s.sessions, name)), Done)
  }

  // ---- groups ----

  function CreateGroup(s: State, name: string, perms: seq<Perm>): (State, Status) {
    if name == "" || exists p :: p in perms && !IsValid(p) then (s, BadRequest)
    else if name in s.groups then (s, Conflict)
    else (s.(groups := s.groups[name := FirstOccurrences(perms)]), Done)
  }

  function UpdateGroup(s: State, name: string, perms: seq<Perm>): (State, Status) {
    if exists p :: p in perms && !IsValid(p) then (s, BadRequest)
    else if name !in s.groups then (s, NotFound)
    else (s.(groups := s.groups[name := FirstOccurrences(perms)]), Done)
  }

  /** A list with every occurrence of one element removed, in order. */
  function Without(gs: seq<string>, name: string): seq<string> {
    if gs == [] then [] else
    var front, g := gs[..|gs| - 1], gs[|gs| - 1];
    Without(front, name) + if g != name then [g] else []
  }

  function LeaveGroup(u: Account, name: string): Account {
    u.(groups := Without(u.groups, name))
  }

  function LeaveGroupAll(users: map<string, Account>, name: string): map<string, Account> {
    map u | u in users :: LeaveGroup(users[u], name)
  }

  function DeleteGroup(s: State, name: string): (State, Status) {
    if name !in s.groups then (s, NotFound)
    else (s.(groups := s.groups - {name}, users := LeaveGroupAll(s.users, name)), Done)
  }

  // ---- logins ----

  function Provisioned(src: Source, defaults: seq<string>): Account {
    Account("", "", Member, defaults, src)
  }

  /** The account an external login ends up with; an account of another source is replaced. */
  function Provision(s: State, name: string, src: Source, defaults: seq<string>): State {
    if name in s.users && s.users[name].source == src then s
    else s.(users := s.users[name := Provisioned(src, defaults)])
  }

  function ProvisionLDAP(s: State, name: string, defaults: seq<string>): State {
    Provision(s, name, LDAP, defaults)
  }

  function ProvisionIMAP(s: State, name: string, auto: bool, defaults: seq<string>): (State, Status) {
    if name in s.users && s.users[name].source == IMAP then (s, Done)
    else if !auto then (s, Pending)
    else (Provision(s, name, IMAP, defaults), Done)
  }

  function OpenSession(s: State, tok: string, name: string, role: Role, expires: int): State {
    s.(sessions := s.sessions[tok := Session(name, role, expires)])
  }

  function Logout(s: State, tok: string): State {
    s.(sessions := s.sessions - {tok})
  }

  /** RequireAuth: an expired session is deleted, a live one names the user. */
  function Authenticate(s: State, tok: string, now: int): (State, Option<string>) {
    if tok !in s.sessions then (s, None)
    else if now > s.sessions[tok].expires then (s.(sessions := s.sessions - {tok}), None)
    else (s, Some(s.sessions[tok].username))
  }

  // ---- runs ----

  datatype Op =
    | DoCreateUser(name: string, password: string, role: Role, salt: string)
    | DoUpdateUser(name: string, change: Change, salt: string)
    | DoDeleteUser(name: string)
    | DoCreateGroup(group: string, perms: seq<Perm>)
    | DoUpdateGroup(group: string, perms: seq<Perm>)
    | DoDeleteGroup(group: string)
    | DoProvisionLDAP(name: string, defaults: seq<string>)
    | DoProvisionIMAP(name: string, auto: bool, defaults: seq<string>)
    | DoOpenSession(tok: string, name: string, role: Role, expires: int)
    | DoLogout(tok: string)
    | DoAuthenticate(tok: string, now: int)

  function Step(h: Hasher, s: State, op: Op): State {
    match op
    case DoCreateUser(name, password, role, salt) => CreateUser(h, s, name, password, role, salt).0
    case DoUpdateUser(name, change, salt) => UpdateUser(h, s, name, change, salt).0
    case DoDeleteUser(name) => DeleteUser(s, name).0
    case DoCreateGroup(group, perms) => CreateGroup(s, group, perms).0
    case DoUpdateGroup(group, perms) => UpdateGroup(s, group, perms).0
    case DoDeleteGroup(group) => DeleteGroup(s, group).0
    case DoProvisionLDAP(name, defaults) => ProvisionLDAP(s, name, defaults)
    case DoProvisionIMAP(name, auto, defaults) => ProvisionIMAP(s, name, auto, defaults).0
    case DoOpenSession(tok, name, role, expires) => OpenSession(s, tok, name, role, expires)
    case DoLogout(tok) => Logout(s, tok)
    case DoAuthenticate(tok, now) => Authenticate(s, tok, now).0
  }

  function Run(h: Hasher, s: State, w: seq<Op>): State {
    if w == [] then s else Step(h, Run(h, s, w[..|w| - 1]), w[|w| - 1])
  }
}
