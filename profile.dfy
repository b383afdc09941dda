/** The caller's own account, `GET` and `PATCH /api/profile`: any signed-in
    user reads their profile and changes their name freely; a new email or
    password needs the current password. Password hashing and comparison
    are outside the model: the handler receives them as functions. */
module Profile {
  import opened Common
  import opened Records
  import opened Store
  import opened Users

  /** `GET /api/profile`: without a session the request is refused;
      otherwise the caller's account, or none when no row holds their id. */
  method GetProfile(db: Database, session: Option<Session>) returns (r: Result<Option<PublicUser>>)
    ensures session.None? ==> r == Err(Unauthorized)
    ensures session.Some? && r.Ok? && r.value.Some? ==>
      exists k :: 0 <= k < |db.users| && db.users[k].id == session.value.userId && r.value.value == Public(db.users[k])
    ensures session.Some? ==> r.Ok?
    ensures session.Some? && r.Ok? ==>
      (r.value.None? <==> forall k :: 0 <= k < |db.users| ==> db.users[k].id != session.value.userId)
  {
    if session.None? {
      return Err(Unauthorized);
    }
    var k := IndexOfId(db.users, session.value.userId);
    if k.None? {
      return Ok(None);
    }
    r := Ok(Some(Public(db.users[k.value])));
  }

  /** A request changes the email or the password. */
  predicate Sensitive(email: string, newPassword: string) {
    email != [] || newPassword != []
  }

  /** Some account other than `userId`'s already holds `email`. */
  ghost predicate EmailHeldByOther(users: seq<User>, email: string, userId: string) {
    exists j :: 0 <= j < |users| && users[j].email == email && users[j].id != userId
  }

  /** With unique emails, the row found by email is the only one holding it. */
  lemma SoleHolder(users: seq<User>, h: nat)
    requires UniqueUsers(users) && h < |users|
    ensures !EmailHeldByOther(users, users[h].email, users[h].id)
  {
  }

  /** The row after the update: a non-empty name, a non-empty email and the
      hash of a non-empty new password replace the stored ones; the id, the
      role and the timestamps stay. */
  function Updated(u: User, name: string, email: string, newPassword: string, hash: string -> string): (v: User)
    ensures v.id == u.id && v.role == u.role && v.createdAt == u.createdAt && v.lastLogin == u.lastLogin
    ensures v.name == (if name != [] then name else u.name)
    ensures v.email == (if email != [] then email else u.email)
    ensures v.passwordHash == (if newPassword != [] then hash(newPassword) else u.passwordHash)
  {
    u.(name := if name != [] then name else u.name,
       email := if email != [] then email else u.email,
       passwordHash := if newPassword != [] then hash(newPassword) else u.passwordHash)
  }

  /** Replacing a row by one with the same id, whose email no other
      account holds, keeps the table's keys unique. */
  lemma UpdateKeepsUnique(users: seq<User>, k: nat, v: User)
    requires UniqueUsers(users) && k < |users|
    requires v.id == users[k].id
    requires v.email == users[k].email || !EmailHeldByOther(users, v.email, v.id)
    ensures UniqueUsers(users[k := v])
  {
    var t := users[k := v];
    forall i, j | 0 <= i < j < |t| ensures t[i].id != t[j].id && t[i].email != t[j].email {
      if i == k {
        assert users[j].id != users[k].id;
      } else if j == k {
        assert users[i].id != users[k].id;
      }
    }
  }

  /** `PATCH /api/profile`. The checks run in the source's order and a
      refused request changes nothing:
      - without a session, 401;
      - when no row holds the caller's id, 404;
      - a new email or password without the current password, 400;
      - a current password that does not match the stored hash, 400;
      - a new email another account holds, 400 (one's own email is fine);
      - otherwise the caller's row alone is updated as `Updated` says, and
        the table's keys stay unique. */
  method UpdateProfile(db: Database, session: Option<Session>, name: string, email: string,
                       currentPassword: string, newPassword: string,
                       compare: (string, string) -> bool, hash: string -> string)
    returns (r: Result<PublicUser>)
    requires db.Valid()
    modifies db
    ensures db.Valid()
    ensures db.pricing == old(db.pricing) && db.executions == old(db.executions)
    ensures db.leads == old(db.leads) && db.faqs == old(db.faqs)
    ensures session.None? ==> r == Err(Unauthorized) && db.users == old(db.users)
    ensures session.Some? && (forall k :: 0 <= k < |old(db.users)| ==> old(db.users)[k].id != session.value.userId) ==>
      r == Err(NotFound) && db.users == old(db.users)
    ensures forall k :: session.Some? && 0 <= k < |old(db.users)| && old(db.users)[k].id == session.value.userId ==>
      var u := old(db.users)[k];
      if Sensitive(email, newPassword) && currentPassword == [] then
        r == Err(BadRequest(CurrentPasswordRequired)) && db.users == old(db.users)
      else if Sensitive(email, newPassword) && !compare(currentPassword, u.passwordHash) then
        r == Err(BadRequest(WrongCurrentPassword)) && db.users == old(db.users)
      else if email != [] && EmailHeldByOther(old(db.users), email, u.id) then
        r == Err(BadRequest(EmailInUse)) && db.users == old(db.users)
      else
        var v := Updated(u, name, email, newPassword, hash);
        db.users == old(db.users)[k := v] && r == Ok(Public(v))
  {
    if session.None? {
      return Err(Unauthorized);
    }
    var userId := session.value.userId;
    var found := IndexOfId(db.users, userId);
    if found.None? {
      return Err(NotFound);
    }
    var k := found.value;
    IndexOfIdUnique(db.users, userId, k);
    var u := db.users[k];
    if Sensitive(email, newPassword) {
      if currentPassword == [] {
        return Err(BadRequest(CurrentPasswordRequired));
      }
      if !compare(currentPassword, u.passwordHash) {
        return Err(BadRequest(WrongCurrentPassword));
      }
      if email != [] {
        var holder := IndexOfEmail(db.users, email);
        if holder.Some? && db.users[holder.value].id != userId {
          return Err(BadRequest(EmailInUse));
        }
        if holder.Some? {
          SoleHolder(db.users, holder.value);
        }
      }
    }
    var v := Updated(u, name, email, newPassword, hash);
    UpdateKeepsUnique(db.users, k, v);
    db.users := db.users[k := v];
    r := Ok(Public(v));
  }
}
