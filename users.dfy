/** The user-profile routes over the `users` table, where `email` is UNIQUE
    and NOT NULL and `name` is NOT NULL. `caller` is the subject's id. A
    query that matches no row still answers 200, with an empty body. */
module Users {

  import opened Common
  import opened Schema
  import opened Store

  const NameAndEmailRequired := "Name and email are required"
  const ProfileUpdateFailed := "Profile update failed"
  const UpdateProfileFailed := "Failed to update profile"

  /** The `id, name, email, role` projection of a users row. */
  datatype UserProfile = UserProfile(id: int, name: string, email: string, role: string)

  function ProfileOfUser(id: int, u: User): UserProfile
  {
    UserProfile(id, u.name, u.email, u.role)
  }

  /** GET /users/profile: the caller's row without its password, or an empty
      body when there is none. */
  function GetProfile(users: map<int, User>, caller: int): (r: Reply<Option<UserProfile>>)
    ensures r.Ok? && r.status == 200
    ensures r.body.Some? <==> caller in users
    ensures r.body.Some? ==> r.body.value == ProfileOfUser(caller, users[caller])
  {
    if caller in users then Ok(200, Some(ProfileOfUser(caller, users[caller]))) else Ok(200, None)
  }

  /** Another row already holds this address, so the UNIQUE constraint
      refuses to give it to the caller. */
  predicate EmailTakenByOther(users: map<int, User>, caller: int, email: string)
  {
    exists id :: id in users && id != caller && users[id].email == email
  }

  /** The table after `UPDATE users SET name, email WHERE id = caller`: only
      the caller's name and email change, and nothing changes when the caller
      has no row. */
  function Renamed(users: map<int, User>, caller: int, name: string, email: string): (r: map<int, User>)
    ensures r.Keys == users.Keys
    ensures forall id :: id in users && id != caller ==> r[id] == users[id]
    ensures caller in users ==>
      r[caller] == User(name, email, users[caller].password, users[caller].role)
  {
    if caller in users then users[caller := users[caller].(name := name, email := email)] else users
  }

  /** PUT /users/profile: both fields must be truthy; then the update, which
      fails with 500 when the address belongs to another row. */
  method UpdateProfile(db: Database, caller: int, name: Option<string>, email: Option<string>)
    returns (r: Reply<Option<UserProfile>>)
    modifies db`users
    ensures !(TruthyText(name) && TruthyText(email)) ==> r == Err(400, NameAndEmailRequired)
    ensures (TruthyText(name) && TruthyText(email) && caller in old(db.users)
      && EmailTakenByOther(old(db.users), caller, email.value)) ==> r == Err(500, ProfileUpdateFailed)
    ensures r.Err? ==> db.users == old(db.users)
    ensures r.Ok? <==>
      TruthyText(name) && TruthyText(email) && !(caller in old(db.users) && EmailTakenByOther(old(db.users), caller, email.value))
    ensures r.Ok? ==>
      && db.users == Renamed(old(db.users), caller, name.value, email.value)
      && r == Ok(200, if caller in db.users then Some(ProfileOfUser(caller, db.users[caller])) else None)
  {
    if !TruthyText(name) || !TruthyText(email) {
      return Err(400, NameAndEmailRequired);
    }
    if caller in db.users && EmailTakenByOther(db.users, caller, email.value) {
      return Err(500, ProfileUpdateFailed);
    }
    db.users := Renamed(db.users, caller, name.value, email.value);
    r := Ok(200, if caller in db.users then Some(ProfileOfUser(caller, db.users[caller])) else None);
  }

  /** PUT /users/updateProfile: the same update with no validation. A missing
      field becomes NULL, which the NOT NULL columns refuse with 500 when the
      caller has a row; an empty string is stored. The reply is the whole
      row, password hash included. */
  method UpdateProfileUnchecked(db: Database, caller: int, name: Option<string>, email: Option<string>)
    returns (r: Reply<Option<(int, User)>>)
    modifies db`users
    ensures (caller in old(db.users) &&
      (name.None? || email.None? || EmailTakenByOther(old(db.users), caller, email.value))) <==>
      r == Err(500, UpdateProfileFailed)
    ensures r.Err? ==> r == Err(500, UpdateProfileFailed) && db.users == old(db.users)
    ensures r.Ok? && caller !in old(db.users) ==> r == Ok(200, None) && db.users == old(db.users)
    ensures r.Ok? && caller in old(db.users) ==>
      && name.Some? && email.Some?
      && db.users == Renamed(old(db.users), caller, name.value, email.value)
      && r == Ok(200, Some((caller, db.users[caller])))
  {
    if caller !in db.users {
      return Ok(200, None);
    }
    if name.None? || email.None? || EmailTakenByOther(db.users, caller, email.value) {
      return Err(500, UpdateProfileFailed);
    }
    db.users := Renamed(db.users, caller, name.value, email.value);
    r := Ok(200, Some((caller, db.users[caller])));
  }

  /** The update keeps addresses unique. */
  lemma RenamedKeepsEmailsUnique(users: map<int, User>, caller: int, name: string, email: string)
    requires forall i, j :: i in users && j in users && users[i].email == users[j].email ==> i == j
    requires !EmailTakenByOther(users, caller, email)
    ensures var after := Renamed(users, caller, name, email);
      forall i, j :: i in after && j in after && after[i].email == after[j].email ==> i == j
  {
  }
}
