/** The unauthenticated claims CRUD routes over the `claims` table, working
    on the columns `policy_purchase_id`, `claim_amount`, `status`,
    `approved_by` and `rejection_reason`. */
module ClaimsCrud {

  import opened Common
  import opened Schema
  import opened Store

  const ClaimNotFound := "Claim not found"
  const ClaimDeleted := "Claim deleted successfully"

  /** The row POST inserts: `status || 'pending'`, `approved_by || null`,
      `rejection_reason || null`, the purchase and amount as sent (NULL when
      missing). */
  function NewClaim(policyPurchaseId: Option<int>, claimAmount: Option<int>, status: Option<string>,
                    approvedBy: Option<int>, rejectionReason: Option<string>): (c: Claim)
    ensures c.policyPurchaseId == policyPurchaseId && c.claimAmount == claimAmount
    ensures c.status == Some(if TruthyText(status) then status.value else "pending")
    ensures c.approvedBy == (if TruthyNumber(approvedBy) then approvedBy else None)
    ensures c.rejectionReason == (if TruthyText(rejectionReason) then rejectionReason else None)
    ensures c.policyId.None? && c.amount.None? && c.description.None?
  {
    Claim(None, None, None, policyPurchaseId, claimAmount, Some(TextOr(status, "pending")),
          NumberOrNull(approvedBy), TextOrNull(rejectionReason))
  }

  /** POST /claimsCRUD: no validation, no authentication, one row. */
  method Create(db: Database, policyPurchaseId: Option<int>, claimAmount: Option<int>, status: Option<string>,
                approvedBy: Option<int>, rejectionReason: Option<string>)
    returns (r: Reply<(int, Claim)>)
    requires db.Valid()
    modifies db`claims, db`nextClaimId
    ensures db.Valid()
    ensures
      var id := old(db.nextClaimId);
      var row := NewClaim(policyPurchaseId, claimAmount, status, approvedBy, rejectionReason);
      && id !in old(db.claims)
      && db.claims == old(db.claims)[id := row]
      && db.nextClaimId == id + 1
      && r == Ok(201, (id, row))
  {
    var id := db.nextClaimId;
    var row := NewClaim(policyPurchaseId, claimAmount, status, approvedBy, rejectionReason);
    db.claims := db.claims[id := row];
    db.nextClaimId := id + 1;
    r := Ok(201, (id, row));
  }

  /** Every non-empty set of ids has a least element. */
  lemma {:induction false} LeastIdExists(ids: set<int>)
    requires ids != {}
    ensures exists m :: m in ids && forall k :: k in ids ==> m <= k
    decreases |ids|
  {
    if forall k :: k !in ids {
      assert false;
    }
    var x :| x in ids;
    var rest := ids - {x};
    if rest == {} {
      assert ids == rest + {x};
      assert ids == {x};
    } else {
      LeastIdExists(rest);
      var m :| m in rest && forall k :: k in rest ==> m <= k;
      var least := if x < m then x else m;
      forall k | k in ids
        ensures least <= k
      {
        if k != x {
          assert k in rest;
        }
      }
      assert least in ids;
    }
  }

  /** The listing facts `InIdOrder` promises, for rows over a table. */
  predicate ListsInIdOrder(claims: map<int, Claim>, rows: seq<(int, Claim)>)
  {
    && (forall i, j :: 0 <= i < j < |rows| ==> rows[i].0 < rows[j].0)
    && (forall i :: 0 <= i < |rows| ==> rows[i].0 in claims && rows[i].1 == claims[rows[i].0])
    && (forall id :: id in claims ==> exists i :: 0 <= i < |rows| && rows[i].0 == id)
  }

  /** Putting the least id's row in front of a listing of the other rows
      lists the whole table. */
  lemma PrependLeast(claims: map<int, Claim>, m: int, tail: seq<(int, Claim)>)
    requires m in claims && forall k :: k in claims ==> m <= k
    requires ListsInIdOrder(claims - {m}, tail)
    ensures ListsInIdOrder(claims, [(m, claims[m])] + tail)
  {
    var rows := [(m, claims[m])] + tail;
    forall i, j | 0 <= i < j < |rows|
      ensures rows[i].0 < rows[j].0
    {
      if i == 0 {
        assert rows[j] == tail[j - 1];
        assert tail[j - 1].0 in claims - {m};
      } else {
        assert rows[i] == tail[i - 1] && rows[j] == tail[j - 1];
      }
    }
    forall i | 0 <= i < |rows|
      ensures rows[i].0 in claims && rows[i].1 == claims[rows[i].0]
    {
      if i > 0 {
        assert rows[i] == tail[i - 1];
      }
    }
    forall id | id in claims
      ensures exists i :: 0 <= i < |rows| && rows[i].0 == id
    {
      if id == m {
        assert rows[0].0 == id;
      } else {
        assert id in claims - {m};
        var i :| 0 <= i < |tail| && tail[i].0 == id;
        assert rows[i + 1].0 == id;
      }
    }
  }

  /** `SELECT * FROM claims ORDER BY id ASC`: every claim once, in strictly
      increasing id order. */
  function InIdOrder(claims: map<int, Claim>): (rows: seq<(int, Claim)>)
    ensures ListsInIdOrder(claims, rows)
    decreases claims.Keys
  {
    if claims.Keys == {} then []
    else
      LeastIdExists(claims.Keys);
      var m :| m in claims && forall k :: k in claims ==> m <= k;
      var tail := InIdOrder(claims - {m});
      PrependLeast(claims, m, tail);
      [(m, claims[m])] + tail
  }

  /** GET /claimsCRUD. */
  function List(claims: map<int, Claim>): (r: Reply<seq<(int, Claim)>>)
    ensures r.Ok? && r.status == 200
    ensures ListsInIdOrder(claims, r.body)
  {
    Ok(200, InIdOrder(claims))
  }

  /** GET /claimsCRUD/:id. */
  function Get(claims: map<int, Claim>, id: int): (r: Reply<Claim>)
    ensures r.Ok? <==> id in claims
    ensures r.Ok? ==> r == Ok(200, claims[id])
    ensures r.Err? ==> r == Err(404, ClaimNotFound)
  {
    if id in claims then Ok(200, claims[id]) else Err(404, ClaimNotFound)
  }

  /** A claim can be read by id exactly when the listing shows it, and the
      two agree on its row. */
  lemma GetAgreesWithList(claims: map<int, Claim>, id: int)
    ensures Get(claims, id).Ok? <==> exists i :: 0 <= i < |List(claims).body| && List(claims).body[i].0 == id
    ensures forall i :: 0 <= i < |List(claims).body| && List(claims).body[i].0 == id ==>
      Get(claims, id) == Ok(200, List(claims).body[i].1)
  {
    var rows := List(claims).body;
    if id in claims {
      assert exists i :: 0 <= i < |rows| && rows[i].0 == id;
    }
  }

  /** PUT /claimsCRUD/:id: all five columns take the values sent, a field
      left out becoming NULL. */
  method Update(db: Database, id: int, policyPurchaseId: Option<int>, claimAmount: Option<int>, status: Option<string>,
                approvedBy: Option<int>, rejectionReason: Option<string>)
    returns (r: Reply<Claim>)
    requires db.Valid()
    modifies db`claims
    ensures db.Valid()
    ensures r.Ok? <==> id in old(db.claims)
    ensures r.Err? ==> r == Err(404, ClaimNotFound) && db.claims == old(db.claims)
    ensures r.Ok? ==>
      var row := old(db.claims)[id].(policyPurchaseId := policyPurchaseId, claimAmount := claimAmount, status := status,
                                     approvedBy := approvedBy, rejectionReason := rejectionReason);
      db.claims == old(db.claims)[id := row] && r == Ok(200, row)
  {
    if id !in db.claims {
      return Err(404, ClaimNotFound);
    }
    var row := db.claims[id].(policyPurchaseId := policyPurchaseId, claimAmount := claimAmount, status := status,
                              approvedBy := approvedBy, rejectionReason := rejectionReason);
    db.claims := db.claims[id := row];
    r := Ok(200, row);
  }

  /** DELETE /claimsCRUD/:id, answering 200 with a message. */
  method Delete(db: Database, id: int) returns (r: Reply<string>)
    requires db.Valid()
    modifies db`claims
    ensures db.Valid()
    ensures r.Ok? <==> id in old(db.claims)
    ensures r.Ok? ==> r == Ok(200, ClaimDeleted) && db.claims == old(db.claims) - {id}
    ensures r.Err? ==> r == Err(404, ClaimNotFound) && db.claims == old(db.claims)
  {
    if id !in db.claims {
      return Err(404, ClaimNotFound);
    }
    db.claims := db.claims - {id};
    r := Ok(200, ClaimDeleted);
  }
}
