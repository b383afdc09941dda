/** User administration, `GET` and `POST /api/users`: an administrator lists
    the accounts, newest first, and creates new ones. Password hashing is
    outside the model: the handler receives it as a function. */
module Users {
  import opened Common
  import opened Seqs
  import opened Records
  import opened Store

  /** The columns `GET` selects: no password hash, no creation instant. */
  datatype UserSummary = UserSummary(id: string, email: string, name: string, role: Role, lastLogin: Option<int>)

  /** The columns `POST` and the profile handler return. */
  datatype PublicUser = PublicUser(id: string, email: string, name: string, role: Role)

  function Summary(u: User): (s: UserSummary)
    ensures s.id == u.id && s.email == u.email && s.name == u.name && s.role == u.role && s.lastLogin == u.lastLogin
  {
    UserSummary(u.id, u.email, u.name, u.role, u.lastLogin)
  }

  function Public(u: User): (p: PublicUser)
    ensures p.id == u.id && p.email == u.email && p.name == u.name && p.role == u.role
  {
    PublicUser(u.id, u.email, u.name, u.role)
  }

  function CreatedAt(u: User): int {
    u.createdAt
  }

  function Summaries(users: seq<User>): (r: seq<UserSummary>)
    ensures |r| == |users|
    ensures forall i :: 0 <= i < |r| ==> r[i] == Summary(users[i])
  {
    if |users| == 0 then [] else [Summary(users[0])] + Summaries(users[1..])
  }

  // ---------------------------------------------------------------- lookups

  /** The row holding `id`, as `findUnique({ where: { id } })`. */
  function IndexOfId(users: seq<User>, id: string): (r: Option<nat>)
    ensures r.Some? ==> r.value < |users| && users[r.value].id == id
    ensures r.None? ==> forall i :: 0 <= i < |users| ==> users[i].id != id
  {
    if |users| == 0 then None
    else if users[0].id == id then Some(0)
    else
      var r := IndexOfId(users[1..], id);
      if r.Some? then Some(r.value + 1) else None
  }

  /** The row holding `email`, as `findUnique({ where: { email } })`. */
  function IndexOfEmail(users: seq<User>, email: string): (r: Option<nat>)
    ensures r.Some? ==> r.value < |users| && users[r.value].email == email
    ensures r.None? ==> forall i :: 0 <= i < |users| ==> users[i].email != email
  {
    if |users| == 0 then None
    else if users[0].email == email then Some(0)
    else
      var r := IndexOfEmail(users[1..], email);
      if r.Some? then Some(r.value + 1) else None
  }

  /** With unique ids, the row found by id is the only row holding it. */
  lemma IndexOfIdUnique(users: seq<User>, id: string, k: nat)
    requires UniqueUsers(users) && k < |users| && users[k].id == id
    ensures IndexOfId(users, id) == Some(k)
  {
  }

  /** The longest id in the table. */
  function MaxIdLength(users: seq<User>): (m: nat)
    ensures forall i :: 0 <= i < |users| ==> |users[i].id| <= m
  {
    if |users| == 0 then 0
    else
      var m := MaxIdLength(users[1..]);
      assert forall i :: 1 <= i < |users| ==> users[i] == users[1..][i - 1];
      if |users[0].id| > m then |users[0].id| else m
  }

  /** An id no row holds: the store's generated primary key. */
  function FreshId(users: seq<User>): (id: string)
    ensures forall i :: 0 <= i < |users| ==> users[i].id != id
  {
    seq(MaxIdLength(users) + 1, _ => 'c')
  }

  // ---------------------------------------------------------------- listing

  /** `GET /api/users`: only an administrator may list the accounts; the
      list holds every account, newest first. */
  method GetUsers(db: Database, session: Option<Session>) returns (r: Result<seq<UserSummary>>)
    ensures !IsAdmin(session) ==> r == Err(Unauthorized)
    ensures IsAdmin(session) ==> r == Ok(Summaries(SortDesc(db.users, CreatedAt)))
  {
    if !IsAdmin(session) {
      return Err(Unauthorized);
    }
    r := Ok(Summaries(SortDesc(db.users, CreatedAt)));
  }

  /** The list is the table reordered, newest first: one summary per
      account, each account exactly as often as in the table. */
  lemma ListedUsers(users: seq<User>)
    ensures var o := SortDesc(users, CreatedAt);
      && |Summaries(o)| == |users|
      && multiset(o) == multiset(users)
      && (forall i :: 0 <= i < |o| ==> Summaries(o)[i] == Summary(o[i]))
      && (forall i, j :: 0 <= i < j < |o| ==> o[i].createdAt >= o[j].createdAt)
  {
    var o := SortDesc(users, CreatedAt);
    assert forall i, j :: 0 <= i < j < |o| ==> CreatedAt(o[i]) >= CreatedAt(o[j]);
  }

  // ---------------------------------------------------------------- creation

  /** The role stored for a new account: the one asked for, else VIEWER. */
  function RoleOrDefault(role: Option<Role>): Role {
    if role.Some? then role.value else Viewer
  }

  /** The row `POST` inserts. */
  function NewUser(users: seq<User>, email: string, password: string, name: string, role: Option<Role>,
                   hash: string -> string, now: int): User
  {
    User(FreshId(users), email, hash(password), name, RoleOrDefault(role), now, None)
  }

  /** Appending an account whose id and email no row holds keeps the
      table's keys unique. */
  lemma {:induction false} AppendKeepsUnique(users: seq<User>, u: User)
    requires UniqueUsers(users)
    requires forall i :: 0 <= i < |users| ==> users[i].id != u.id && users[i].email != u.email
    ensures UniqueUsers(users + [u])
  {
    var t := users + [u];
    forall i, j | 0 <= i < j < |t| ensures t[i].id != t[j].id && t[i].email != t[j].email {
      assert t[i] == users[i];
      if j == |users| {
        assert t[j] == u;
      } else {
        assert t[j] == users[j];
      }
    }
  }

  /** `POST /api/users`. The checks run in the source's order and a refused
      request leaves the table as it was:
      - a caller without an ADMIN session gets 401;
      - an empty email, password or name gets 400;
      - an email some account already holds gets 400;
      - otherwise exactly one account is appended, with the given email and
        name, the hashed password, and the requested role or VIEWER.
      The answer never carries the password hash. */
  method CreateUser(db: Database, session: Option<Session>, email: string, password: string, name: string,
                    role: Option<Role>, hash: string -> string, now: int) returns (r: Result<PublicUser>)
    modifies db
    ensures db.pricing == old(db.pricing) && db.executions == old(db.executions)
    ensures db.leads == old(db.leads) && db.faqs == old(db.faqs)
    ensures old(db.Valid()) ==> db.Valid()
    ensures !IsAdmin(session) ==> r == Err(Unauthorized) && db.users == old(db.users)
    ensures IsAdmin(session) && (email == [] || password == [] || name == []) ==>
      r == Err(BadRequest(MissingFields)) && db.users == old(db.users)
    ensures IsAdmin(session) && email != [] && password != [] && name != [] &&
            (exists i :: 0 <= i < |old(db.users)| && old(db.users)[i].email == email) ==>
      r == Err(BadRequest(EmailRegistered)) && db.users == old(db.users)
    ensures IsAdmin(session) && email != [] && password != [] && name != [] &&
            (forall i :: 0 <= i < |old(db.users)| ==> old(db.users)[i].email != email) ==>
      var u := NewUser(old(db.users), email, password, name, role, hash, now);
      db.users == old(db.users) + [u] && r == Ok(Public(u))
  {
    if !IsAdmin(session) {
      return Err(Unauthorized);
    }
    if email == [] || password == [] || name == [] {
      return Err(BadRequest(MissingFields));
    }
    var existing := IndexOfEmail(db.users, email);
    if existing.Some? {
      return Err(BadRequest(EmailRegistered));
    }
    var u := NewUser(db.users, email, password, name, role, hash, now);
    if db.Valid() {
      AppendKeepsUnique(db.users, u);
    }
    db.users := db.users + [u];
    r := Ok(Public(u));
  }
}
