/** The admin routes: the user list, the pending lists, and the two decisions
    that set a purchase's or a claim's status and notify its buyer. The
    caller's role is what the middleware put in `req.user.role`; the decision
    is the truthiness of the request's `decision`. */
module Admin {

  import opened Common
  import opened Schema
  import opened Store
  import opened AuthMiddleware
  import opened Mail

  const AdminRequired := "Admin privileges required"
  const PolicyDecisionFailed := "Failed to process policy decision"
  const ClaimDecisionFailed := "Failed to process claim decision"

  /** The status a decision writes: approval or denial. */
  function Decide(decision: bool): string
  {
    if decision then "approved" else "denied"
  }

  /** A users row without its password hash, as `SELECT id, name, email, role`
      returns it. */
  datatype UserView = UserView(name: string, email: string, role: string)

  /** GET /admin/users, behind the admin gate. */
  function ListUsers(users: map<int, User>, role: Option<string>): (r: Reply<map<int, UserView>>)
    ensures r.Err? <==> !IsAdminRole(role)
    ensures r.Err? ==> r == Err(403, AdminRequired)
    ensures r.Ok? ==> r.status == 200 && r.body.Keys == users.Keys
    ensures r.Ok? ==> forall id :: id in users ==>
      r.body[id] == UserView(users[id].name, users[id].email, users[id].role)
  {
    if !IsAdminRole(role) then Err(403, AdminRequired)
    else Ok(200, map id | id in users :: UserView(users[id].name, users[id].email, users[id].role))
  }

  /** `getRecipientEmail`: the address of a row with role 'user'; a NULL id, a
      missing row and an admin's row all give nothing. */
  function RecipientEmail(users: map<int, User>, userId: Option<int>): (r: Option<string>)
    ensures r.Some? <==> userId.Some? && userId.value in users && users[userId.value].role == "user"
    ensures r.Some? ==> r.value == users[userId.value].email
  {
    if userId.Some? && userId.value in users && users[userId.value].role == "user" then
      Some(users[userId.value].email)
    else None
  }

  /** POST /admin/approvePolicy/:policyId. The status is set whatever it was
      before, so a decision can be reversed. A missing purchase is found only
      after the (empty) update, when its `user_id` is read, and gives 500. The
      mail says "rejected" where the row says "denied"; a failed send does
      not change the reply. */
  method ApprovePolicy(db: Database, role: Option<string>, policyId: int, decision: bool, today: string)
    returns (r: Reply<string>, notice: Option<Notice>)
    requires db.Valid()
    modifies db`purchases
    ensures db.Valid()
    ensures !IsAdminRole(role) ==>
      r == Err(403, AdminRequired) && notice.None? && db.purchases == old(db.purchases)
    ensures IsAdminRole(role) && policyId !in old(db.purchases) ==>
      r == Err(500, PolicyDecisionFailed) && notice.None? && db.purchases == old(db.purchases)
    ensures IsAdminRole(role) && policyId in old(db.purchases) ==>
      var email := RecipientEmail(db.users, old(db.purchases)[policyId].userId);
      && db.purchases == old(db.purchases)[policyId := old(db.purchases)[policyId].(status := Decide(decision))]
      && r == Ok(200, "Policy " + Decide(decision))
      && (notice.Some? <==> TruthyText(email))
      && (notice.Some? ==> notice.value == Notice(
            email.value,
            if decision then "Policy Approved" else "Policy Rejected",
            if decision then "policy_approved" else "policy_rejected",
            [("policyId", Decimal(policyId)),
             ("status", if decision then "approved" else "rejected"),
             ("decisionDate", today)]))
  {
    notice := None;
    if !IsAdminRole(role) {
      return Err(403, AdminRequired), None;
    }
    var newStatus := Decide(decision);
    if policyId in db.purchases {
      db.purchases := db.purchases[policyId := db.purchases[policyId].(status := newStatus)];
    }
    if policyId !in db.purchases {
      return Err(500, PolicyDecisionFailed), None;
    }
    var userEmail := RecipientEmail(db.users, db.purchases[policyId].userId);
    if TruthyText(userEmail) {
      var subject := if decision then "Policy Approved" else "Policy Rejected";
      var template := if decision then "policy_approved" else "policy_rejected";
      notice := Some(Notice(userEmail.value, subject, template,
        [("policyId", Decimal(policyId)),
         ("status", if decision then "approved" else "rejected"),
         ("decisionDate", today)]));
    }
    r := Ok(200, "Policy " + newStatus);
  }

  /** The join `claims c JOIN policy_purchases pp ON c.policy_purchase_id =
      pp.id`: the purchase a claim is filed against, when there is one. */
  predicate HasPurchase(c: Claim, purchases: map<int, PolicyPurchase>)
  {
    c.policyPurchaseId.Some? && c.policyPurchaseId.value in purchases
  }

  /** POST /admin/approveClaim/:claimId. The update is done first; when the
      claim has no purchase to join, reading its `user_id` fails and the reply
      is 500 although the status has been written. */
  method ApproveClaim(db: Database, role: Option<string>, claimId: int, decision: bool, rejectionReason: Option<string>)
    returns (r: Reply<string>, notice: Option<Notice>)
    requires db.Valid()
    modifies db`claims
    ensures db.Valid()
    ensures !IsAdminRole(role) ==>
      r == Err(403, AdminRequired) && notice.None? && db.claims == old(db.claims)
    ensures IsAdminRole(role) && claimId !in old(db.claims) ==>
      r == Err(500, ClaimDecisionFailed) && notice.None? && db.claims == old(db.claims)
    ensures IsAdminRole(role) && claimId in old(db.claims) ==>
      db.claims == old(db.claims)[claimId := old(db.claims)[claimId].(
        status := Some(Decide(decision)), rejectionReason := TextOrNull(rejectionReason))]
    ensures IsAdminRole(role) && claimId in old(db.claims) && !HasPurchase(old(db.claims)[claimId], db.purchases) ==>
      r == Err(500, ClaimDecisionFailed) && notice.None?
    ensures IsAdminRole(role) && claimId in old(db.claims) && HasPurchase(old(db.claims)[claimId], db.purchases) ==>
      var email := RecipientEmail(db.users, db.purchases[old(db.claims)[claimId].policyPurchaseId.value].userId);
      && r == Ok(200, "Claim " + Decide(decision))
      && (notice.Some? <==> TruthyText(email))
      && (notice.Some? ==> notice.value == Notice(
            email.value,
            if decision then "Claim Approved" else "Claim Rejected",
            if decision then "claim_approved" else "claim_rejected",
            [("claimId", Decimal(claimId)),
             ("decision", if decision then "true" else "false"),
             ("rejectionReason", TextOr(rejectionReason, "N/A"))]))
  {
    notice := None;
    if !IsAdminRole(role) {
      return Err(403, AdminRequired), None;
    }
    var newStatus := Decide(decision);
    if claimId in db.claims {
      db.claims := db.claims[claimId := db.claims[claimId].(
        status := Some(newStatus), rejectionReason := TextOrNull(rejectionReason))];
    }
    if claimId !in db.claims || !HasPurchase(db.claims[claimId], db.purchases) {
      return Err(500, ClaimDecisionFailed), None;
    }
    var purchase := db.purchases[db.claims[claimId].policyPurchaseId.value];
    var userEmail := RecipientEmail(db.users, purchase.userId);
    if TruthyText(userEmail) {
      var subject := if decision then "Claim Approved" else "Claim Rejected";
      var template := if decision then "claim_approved" else "claim_rejected";
      notice := Some(Notice(userEmail.value, subject, template,
        [("claimId", Decimal(claimId)),
         ("decision", if decision then "true" else "false"),
         ("rejectionReason", TextOr(rejectionReason, "N/A"))]));
    }
    r := Ok(200, "Claim " + newStatus);
  }

  /** GET /admin/pendingPolicies: the purchases whose status is 'pending'. */
  function PendingPolicies(purchases: map<int, PolicyPurchase>): (r: map<int, PolicyPurchase>)
    ensures forall id :: id in r <==> id in purchases && purchases[id].status == "pending"
    ensures forall id :: id in r ==> r[id] == purchases[id]
  {
    map id | id in purchases && purchases[id].status == "pending" :: purchases[id]
  }

  /** A row of GET /admin/pendingClaims: the claim with its buyer's id and
      address. */
  datatype PendingClaim = PendingClaim(claim: Claim, userId: int, email: string)

  /** The buyer of a claim: the claim's purchase names a user row. */
  predicate HasBuyer(c: Claim, purchases: map<int, PolicyPurchase>, users: map<int, User>)
  {
    && HasPurchase(c, purchases)
    && purchases[c.policyPurchaseId.value].userId.Some?
    && purchases[c.policyPurchaseId.value].userId.value in users
  }

  /** GET /admin/pendingClaims: the pending claims that join a purchase and a
      user (inner joins, so the others are left out); any role's address is
      shown. */
  function PendingClaims(claims: map<int, Claim>, purchases: map<int, PolicyPurchase>, users: map<int, User>)
    : (r: map<int, PendingClaim>)
    ensures forall id :: id in r <==>
      id in claims && claims[id].status == Some("pending") && HasBuyer(claims[id], purchases, users)
    ensures forall id :: id in r ==>
      && id in claims && HasBuyer(claims[id], purchases, users)
      && var u := purchases[claims[id].policyPurchaseId.value].userId.value;
         r[id] == PendingClaim(claims[id], u, users[u].email)
  {
    map id | id in claims && claims[id].status == Some("pending") && HasBuyer(claims[id], purchases, users) ::
      var u := purchases[claims[id].policyPurchaseId.value].userId.value;
      PendingClaim(claims[id], u, users[u].email)
  }

  /** A decided purchase leaves the pending list, and no other purchase
      enters or leaves it. */
  lemma DecisionClearsPendingPolicy(purchases: map<int, PolicyPurchase>, id: int, decision: bool)
    requires id in purchases
    ensures var after := purchases[id := purchases[id].(status := Decide(decision))];
      && id !in PendingPolicies(after)
      && PendingPolicies(after) == PendingPolicies(purchases) - {id}
  {
    var after := purchases[id := purchases[id].(status := Decide(decision))];
    assert PendingPolicies(after).Keys == PendingPolicies(purchases).Keys - {id};
  }

  /** A decided claim leaves the pending-claims list, and no other row of it
      changes. */
  lemma DecisionClearsPendingClaim(claims: map<int, Claim>, purchases: map<int, PolicyPurchase>,
                                   users: map<int, User>, id: int, decision: bool, reason: Option<string>)
    requires id in claims
    ensures var after := claims[id := claims[id].(status := Some(Decide(decision)), rejectionReason := TextOrNull(reason))];
      PendingClaims(after, purchases, users) == PendingClaims(claims, purchases, users) - {id}
  {
    var after := claims[id := claims[id].(status := Some(Decide(decision)), rejectionReason := TextOrNull(reason))];
    assert PendingClaims(after, purchases, users).Keys == PendingClaims(claims, purchases, users).Keys - {id};
  }

  /** Admins are never mailed: the recipient lookup skips every row whose
      role is not 'user'. */
  lemma OnlyUsersAreNotified(users: map<int, User>, userId: int)
    requires userId in users && users[userId].role != "user"
    ensures RecipientEmail(users, Some(userId)) == None
  {
  }
}
