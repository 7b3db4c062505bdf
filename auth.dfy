/** Registration, login and the current-policyholder route over the
    `policyholders` table. Hashing and signing are the symbolic ones of
    `Crypto`. */
module Auth {

  import opened Common
  import opened Crypto
  import opened Schema
  import opened Store

  const MissingFields := "Missing required fields"
  const UserExists := "User already exists"
  const MissingCredentials := "Missing credentials"
  const InvalidCredentials := "Invalid credentials"
  const UserNotFound := "User not found"

  /** Some policyholder row has this contact. */
  predicate ContactTaken(policyholders: map<int, Policyholder>, contact: string)
  {
    exists id :: id in policyholders && policyholders[id].contact == contact
  }

  /** No two policyholder rows share a contact. */
  predicate UniqueContacts(policyholders: map<int, Policyholder>)
  {
    forall i, j :: i in policyholders && j in policyholders && policyholders[i].contact == policyholders[j].contact ==> i == j
  }

  /** Row `id` is the only row with this contact. */
  predicate SoleHolder(policyholders: map<int, Policyholder>, contact: string, id: int)
  {
    forall j :: j in policyholders && policyholders[j].contact == contact ==> j == id
  }

  /** Row `id` has the given contact and the password matches its digest. */
  predicate CanLogInAs(policyholders: map<int, Policyholder>, contact: string, password: string, id: int)
  {
    id in policyholders && policyholders[id].contact == contact && Compare(password, policyholders[id].password)
  }

  /** POST /auth/register. The stored password is the digest of the one sent;
      the reply is the row without it. */
  method Register(db: Database, name: Option<string>, contact: Option<string>, password: Option<string>)
    returns (r: Reply<Profile>)
    requires db.Valid()
    modifies db`policyholders, db`nextPolicyholderId
    ensures db.Valid()
    ensures !(TruthyText(name) && TruthyText(contact) && TruthyText(password)) ==> r == Err(400, MissingFields)
    ensures TruthyText(name) && TruthyText(contact) && TruthyText(password) && ContactTaken(old(db.policyholders), contact.value) ==>
      r == Err(409, UserExists)
    ensures r.Ok? <==>
      TruthyText(name) && TruthyText(contact) && TruthyText(password) && !ContactTaken(old(db.policyholders), contact.value)
    ensures r.Err? ==>
      db.policyholders == old(db.policyholders) && db.nextPolicyholderId == old(db.nextPolicyholderId)
    ensures r.Ok? ==>
      var id := old(db.nextPolicyholderId);
      var row := Policyholder(name.value, contact.value, Hash(password.value));
      && id !in old(db.policyholders)
      && db.policyholders == old(db.policyholders)[id := row]
      && db.nextPolicyholderId == id + 1
      && r == Ok(201, ProfileOf(id, row))
    ensures UniqueContacts(old(db.policyholders)) ==> UniqueContacts(db.policyholders)
  {
    if !TruthyText(name) || !TruthyText(contact) || !TruthyText(password) {
      return Err(400, MissingFields);
    }
    if ContactTaken(db.policyholders, contact.value) {
      return Err(409, UserExists);
    }
    var id := db.nextPolicyholderId;
    var row := Policyholder(name.value, contact.value, Hash(password.value));
    if UniqueContacts(db.policyholders) {
      InsertKeepsContactsUnique(db.policyholders, id, row);
    }
    db.policyholders := db.policyholders[id := row];
    db.nextPolicyholderId := id + 1;
    r := Ok(201, ProfileOf(id, row));
  }

  /** Adding a row with a new contact keeps contacts unique. */
  lemma InsertKeepsContactsUnique(policyholders: map<int, Policyholder>, id: int, row: Policyholder)
    requires UniqueContacts(policyholders) && id !in policyholders && !ContactTaken(policyholders, row.contact)
    ensures UniqueContacts(policyholders[id := row])
  {
  }

  /** POST /auth/login. An unknown contact and a wrong password get the same
      401. When several rows share the contact, any one of them is the row
      the query returns first. */
  method Login(policyholders: map<int, Policyholder>, contact: Option<string>, password: Option<string>)
    returns (r: Reply<Token>)
    ensures !(TruthyText(contact) && TruthyText(password)) ==> r == Err(400, MissingCredentials)
    ensures TruthyText(contact) && TruthyText(password) && !ContactTaken(policyholders, contact.value) ==>
      r == Err(401, InvalidCredentials)
    ensures r.Err? && TruthyText(contact) && TruthyText(password) ==> r == Err(401, InvalidCredentials)
    ensures r.Ok? ==>
      exists id :: CanLogInAs(policyholders, contact.value, password.value, id) && r == Ok(200, Sign(LoginPayload(id)))
    ensures UniqueContacts(policyholders) && TruthyText(contact) && TruthyText(password) ==>
      forall id :: CanLogInAs(policyholders, contact.value, password.value, id) ==> r == Ok(200, Sign(LoginPayload(id)))
    ensures TruthyText(contact) && TruthyText(password) ==>
      forall id :: CanLogInAs(policyholders, contact.value, password.value, id) && SoleHolder(policyholders, contact.value, id) ==>
        r == Ok(200, Sign(LoginPayload(id)))
  {
    if !TruthyText(contact) || !TruthyText(password) {
      return Err(400, MissingCredentials);
    }
    if !ContactTaken(policyholders, contact.value) {
      return Err(401, InvalidCredentials);
    }
    var id :| id in policyholders && policyholders[id].contact == contact.value;
    if !Compare(password.value, policyholders[id].password) {
      return Err(401, InvalidCredentials);
    }
    r := Ok(200, Sign(LoginPayload(id)));
  }

  /** GET /auth/me: the caller's row without its password. */
  function Me(policyholders: map<int, Policyholder>, caller: int): (r: Reply<Profile>)
    ensures r.Err? <==> caller !in policyholders
    ensures r.Err? ==> r == Err(404, UserNotFound)
    ensures r.Ok? ==> r == Ok(200, ProfileOf(caller, policyholders[caller]))
  {
    if caller in policyholders then Ok(200, ProfileOf(caller, policyholders[caller])) else Err(404, UserNotFound)
  }

  /** Registering and then logging in with the same contact and password
      gives a token for the new row: registration refuses a contact already
      taken, so the new row is the only one with it. */
  method RegisterThenLogIn(db: Database, name: string, contact: string, password: string)
    returns (registered: Reply<Profile>, login: Reply<Token>)
    requires db.Valid() && !ContactTaken(db.policyholders, contact)
    requires name != "" && contact != "" && password != ""
    modifies db`policyholders, db`nextPolicyholderId
    ensures registered.Ok? && login == Ok(200, Sign(LoginPayload(registered.body.id)))
  {
    registered := Register(db, Some(name), Some(contact), Some(password));
    CompareOwnHash(password);
    assert CanLogInAs(db.policyholders, contact, password, registered.body.id);
    assert SoleHolder(db.policyholders, contact, registered.body.id);
    login := Login(db.policyholders, Some(contact), Some(password));
  }
}
