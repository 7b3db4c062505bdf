/** The claims routes over the `claims` and `policies` tables: file a claim
    against a policy, change its status, delete it, and read the caller's
    claims. Ownership means: the claim's `policy_id` names a policy whose
    `policyholder_id` is the caller. */
module Claims {

  import opened Common
  import opened Schema
  import opened Store

  /** The `validTransitions` table. It is declared, but no route consults it. */
  const ValidTransitions: map<string, seq<string>> := map[
    "pending" := ["approved", "denied"],
    "approved" := ["paid"],
    "denied" := [],
    "paid" := []]

  predicate IsValidTransition(from: string, to: string)
  {
    from in ValidTransitions && to in ValidTransitions[from]
  }

  /** The table allows exactly pending to approved or denied, and approved to
      paid; denied and paid have no successors. */
  lemma TransitionTable(from: string, to: string)
    ensures IsValidTransition(from, to) <==>
      (from == "pending" && (to == "approved" || to == "denied")) || (from == "approved" && to == "paid")
    ensures ValidTransitions.Keys == {"pending", "approved", "denied", "paid"}
    ensures ValidTransitions["denied"] == [] && ValidTransitions["paid"] == []
  {
  }

  const MissingFields := "Missing required fields: policyId and amount are mandatory"
  const PolicyNotFound := "Policy not found"

  /** The 400 message when a claim is larger than its policy's amount. */
  function ExceedsLimit(amount: int, limit: int): string
  {
    "Claim amount (" + Decimal(amount) + ") exceeds policy limit (" + Decimal(limit) + ")"
  }

  /** The message names both numbers, and each can be read back from it. */
  lemma ExceedsLimitNamesBoth(amount: int, limit: int)
    ensures Contains(ExceedsLimit(amount, limit), Decimal(amount))
    ensures Contains(ExceedsLimit(amount, limit), Decimal(limit))
    ensures DecimalValue(Decimal(amount)) == amount && DecimalValue(Decimal(limit)) == limit
  {
    var m := ExceedsLimit(amount, limit);
    var p := "Claim amount (";
    var q := p + Decimal(amount) + ") exceeds policy limit (";
    assert Decimal(amount) <= m[|p|..];
    assert Decimal(limit) <= m[|q|..];
    DecimalRoundTrip(amount);
    DecimalRoundTrip(limit);
  }

  /** The row POST inserts: the given policy, amount and description, and
      the column defaults otherwise. */
  function FiledClaim(policyId: int, amount: int, description: Option<string>): Claim
  {
    Claim(Some(policyId), Some(amount), description, None, None, Some("pending"), None, None)
  }

  /** POST /claims. Both fields are checked before any lookup, so an amount of
      0 is refused; there is no ownership check on the policy and no
      duplicate-claim check. */
  method Create(db: Database, policyId: Option<int>, amount: Option<int>, description: Option<string>)
    returns (r: Reply<(int, Claim)>)
    requires db.Valid()
    modifies db`claims, db`nextClaimId
    ensures db.Valid()
    ensures !(TruthyNumber(policyId) && TruthyNumber(amount)) ==> r == Err(400, MissingFields)
    ensures TruthyNumber(policyId) && TruthyNumber(amount) && policyId.value !in db.policies ==>
      r == Err(404, PolicyNotFound)
    ensures (TruthyNumber(policyId) && TruthyNumber(amount) && policyId.value in db.policies
      && amount.value > db.policies[policyId.value].amount) ==>
      r == Err(400, ExceedsLimit(amount.value, db.policies[policyId.value].amount))
    ensures r.Ok? <==>
      && TruthyNumber(policyId) && TruthyNumber(amount)
      && policyId.value in db.policies && amount.value <= db.policies[policyId.value].amount
    ensures r.Err? ==> db.claims == old(db.claims) && db.nextClaimId == old(db.nextClaimId)
    ensures r.Ok? ==>
      var id := old(db.nextClaimId);
      var row := FiledClaim(policyId.value, amount.value, description);
      && id !in old(db.claims)
      && db.claims == old(db.claims)[id := row]
      && db.nextClaimId == id + 1
      && r == Ok(201, (id, row))
  {
    if !TruthyNumber(policyId) || !TruthyNumber(amount) {
      return Err(400, MissingFields);
    }
    if policyId.value !in db.policies {
      return Err(404, PolicyNotFound);
    }
    var policy := db.policies[policyId.value];
    if amount.value > policy.amount {
      return Err(400, ExceedsLimit(amount.value, policy.amount));
    }
    var id := db.nextClaimId;
    var row := FiledClaim(policyId.value, amount.value, description);
    db.claims := db.claims[id := row];
    db.nextClaimId := id + 1;
    r := Ok(201, (id, row));
  }

  /** The join `claims c JOIN policies p ON c.policy_id = p.id WHERE
      p.policyholder_id = caller`. */
  predicate OwnedBy(c: Claim, policies: map<int, Policy>, caller: int)
  {
    c.policyId.Some? && c.policyId.value in policies && policies[c.policyId.value].policyholderId == caller
  }

  /** PUT /claims/:id. An absent claim and another policyholder's claim give
      the same 403; otherwise the status becomes whatever was sent (NULL when
      nothing was), without consulting the transition table. */
  method UpdateStatus(db: Database, caller: int, id: int, status: Option<string>) returns (r: Reply<(int, Claim)>)
    requires db.Valid()
    modifies db`claims
    ensures db.Valid()
    ensures r.Ok? <==> id in old(db.claims) && OwnedBy(old(db.claims)[id], db.policies, caller)
    ensures r.Err? ==> r == Err(403, "Access denied") && db.claims == old(db.claims)
    ensures r.Ok? ==>
      && db.claims == old(db.claims)[id := old(db.claims)[id].(status := status)]
      && r == Ok(200, (id, db.claims[id]))
  {
    if id !in db.claims || !OwnedBy(db.claims[id], db.policies, caller) {
      return Err(403, "Access denied");
    }
    var row := db.claims[id].(status := status);
    db.claims := db.claims[id := row];
    r := Ok(200, (id, row));
  }

  /** DELETE /claims/:id, with no ownership check. */
  method Delete(db: Database, id: int) returns (r: Reply<()>)
    requires db.Valid()
    modifies db`claims
    ensures db.Valid()
    ensures r.Ok? <==> id in old(db.claims)
    ensures r.Ok? ==> r == Ok(204, ()) && db.claims == old(db.claims) - {id}
    ensures r.Err? ==> r == Err(404, "Claim not found") && db.claims == old(db.claims)
  {
    if id !in db.claims {
      return Err(404, "Claim not found");
    }
    db.claims := db.claims - {id};
    r := Ok(204, ());
  }

  /** GET /claims: the caller's claims and no others. */
  function ListOwned(claims: map<int, Claim>, policies: map<int, Policy>, caller: int): (r: map<int, Claim>)
    ensures forall id :: id in r <==> id in claims && OwnedBy(claims[id], policies, caller)
    ensures forall id :: id in r ==> r[id] == claims[id]
  {
    map id | id in claims && OwnedBy(claims[id], policies, caller) :: claims[id]
  }

  /** GET /claims/:id: an absent claim and another policyholder's claim give
      the same 404. */
  function GetOwned(claims: map<int, Claim>, policies: map<int, Policy>, caller: int, id: int): (r: Reply<(int, Claim)>)
    ensures r.Ok? <==> id in ListOwned(claims, policies, caller)
    ensures r.Ok? ==> r == Ok(200, (id, claims[id]))
    ensures r.Err? ==> r == Err(404, "Claim not found or access denied")
  {
    if id in claims && OwnedBy(claims[id], policies, caller) then Ok(200, (id, claims[id]))
    else Err(404, "Claim not found or access denied")
  }

  /** Another policyholder's claim is hidden from the caller: GET /claims
      leaves it out, and GET /claims/:id answers exactly as if it were absent. */
  lemma ForeignClaimHidden(claims: map<int, Claim>, policies: map<int, Policy>, caller: int, id: int)
    requires id in claims && !OwnedBy(claims[id], policies, caller)
    ensures GetOwned(claims, policies, caller, id) == GetOwned(claims - {id}, policies, caller, id)
    ensures id !in ListOwned(claims, policies, caller)
  {
  }
}
