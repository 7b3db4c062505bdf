/** The policy routes: create a policy for a policyholder after a chain of
    checks, list all policies, read one, delete one. None of them looks at
    who the caller is. `jsDate` says which strings JavaScript's `Date`
    parses; `pgDate` which ones Postgres accepts as a DATE (a rejection is
    error 22007). */
module Policies {

  import opened Common
  import opened Schema
  import opened Store

  const MissingFields := "Missing required fields"
  const InvalidStartDate := "Invalid start date format"
  const InvalidEndDate := "Invalid end date format"
  const PolicyholderNotFound := "Policyholder not found"
  const InvalidDate := "Invalid date format"
  const PolicyNotFound := "Policy not found"

  /** The stored end date: NULL when none was sent, the text
      otherwise (even an empty one). */
  function EndDateOf(endDate: Option<string>): (r: Option<Date>)
    ensures r.Some? <==> endDate.Some?
    ensures r.Some? ==> r.value == Literal(endDate.value)
  {
    match endDate
    case None => None
    case Some(e) => Some(Literal(e))
  }

  /** POST /policies. The checks run in this order: required fields, the
      start date, the end date (only when one is given and non-empty), the
      policyholder, and finally Postgres' own reading of both dates during
      the insert. An empty end date passes the first checks and reaches
      Postgres as the text '', which it refuses as a DATE. */
  method Create(db: Database, policyType: Option<string>, amount: Option<int>, policyholderId: Option<int>,
                startDate: Option<string>, endDate: Option<string>,
                jsDate: string -> bool, pgDate: string -> bool)
    returns (r: Reply<(int, Policy)>)
    requires db.Valid()
    requires !pgDate("")
    modifies db`policies, db`nextPolicyId
    ensures db.Valid()
    ensures !(TruthyText(policyType) && TruthyNumber(amount) && TruthyNumber(policyholderId) && TruthyText(startDate)) ==>
      r == Err(400, MissingFields)
    ensures TruthyText(policyType) && TruthyNumber(amount) && TruthyNumber(policyholderId) && TruthyText(startDate) ==>
      && (!jsDate(startDate.value) ==> r == Err(400, InvalidStartDate))
      && (jsDate(startDate.value) && TruthyText(endDate) && !jsDate(endDate.value) ==> r == Err(400, InvalidEndDate))
      && (jsDate(startDate.value) && (TruthyText(endDate) ==> jsDate(endDate.value)) ==>
            && (policyholderId.value !in db.policyholders ==> r == Err(404, PolicyholderNotFound))
            && (policyholderId.value in db.policyholders
                && !(pgDate(startDate.value) && (endDate.Some? ==> pgDate(endDate.value))) ==>
                  r == Err(400, InvalidDate)))
    ensures r.Ok? <==>
      && TruthyText(policyType) && TruthyNumber(amount) && TruthyNumber(policyholderId) && TruthyText(startDate)
      && jsDate(startDate.value) && (TruthyText(endDate) ==> jsDate(endDate.value))
      && policyholderId.value in db.policyholders
      && pgDate(startDate.value) && (endDate.Some? ==> pgDate(endDate.value))
    ensures r.Err? ==> db.policies == old(db.policies) && db.nextPolicyId == old(db.nextPolicyId)
    ensures r.Ok? ==>
      var id := old(db.nextPolicyId);
      var row := Policy(policyType.value, amount.value, policyholderId.value, Literal(startDate.value), EndDateOf(endDate));
      && id !in old(db.policies)
      && db.policies == old(db.policies)[id := row]
      && db.nextPolicyId == id + 1
      && r == Ok(201, (id, row))
  {
    if !TruthyText(policyType) || !TruthyNumber(amount) || !TruthyNumber(policyholderId) || !TruthyText(startDate) {
      return Err(400, MissingFields);
    }
    if !jsDate(startDate.value) {
      return Err(400, InvalidStartDate);
    }
    if TruthyText(endDate) && !jsDate(endDate.value) {
      return Err(400, InvalidEndDate);
    }
    if policyholderId.value !in db.policyholders {
      return Err(404, PolicyholderNotFound);
    }
    if !pgDate(startDate.value) || (endDate.Some? && !pgDate(endDate.value)) {
      return Err(400, InvalidDate);
    }
    var id := db.nextPolicyId;
    var row := Policy(policyType.value, amount.value, policyholderId.value, Literal(startDate.value), EndDateOf(endDate));
    db.policies := db.policies[id := row];
    db.nextPolicyId := id + 1;
    r := Ok(201, (id, row));
  }

  /** GET /policies: every policy, whoever owns it. */
  function List(policies: map<int, Policy>): (r: Reply<map<int, Policy>>)
    ensures r.Ok? && r.status == 200
    ensures r.body.Keys == policies.Keys && forall id :: id in policies ==> r.body[id] == policies[id]
  {
    Ok(200, policies)
  }

  /** GET /policies/:id, with no ownership check: a policy can be read
      exactly when it is listed. */
  function Get(policies: map<int, Policy>, id: int): (r: Reply<Policy>)
    ensures r.Ok? <==> id in List(policies).body
    ensures r.Ok? ==> r == Ok(200, policies[id])
    ensures r.Err? ==> r == Err(404, PolicyNotFound)
  {
    if id in policies then Ok(200, policies[id]) else Err(404, PolicyNotFound)
  }

  /** DELETE /policies/:id. */
  method Delete(db: Database, id: int) returns (r: Reply<()>)
    requires db.Valid()
    modifies db`policies
    ensures db.Valid()
    ensures r.Ok? <==> id in old(db.policies)
    ensures r.Ok? ==> r == Ok(204, ()) && db.policies == old(db.policies) - {id}
    ensures r.Err? ==> r == Err(404, PolicyNotFound) && db.policies == old(db.policies)
  {
    if id !in db.policies {
      return Err(404, PolicyNotFound);
    }
    db.policies := db.policies - {id};
    r := Ok(204, ());
  }

  /** Once deleted, a policy can no longer be read. */
  lemma DeletedPolicyGone(policies: map<int, Policy>, id: int)
    ensures Get(policies - {id}, id) == Err(404, PolicyNotFound)
  {
  }
}
