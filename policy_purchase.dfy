/** The policy-purchase routes: buy a product as the authenticated user, and
    list that user's purchases. `caller` is the subject's id; `pgDate` says
    which strings Postgres accepts as a DATE. */
module PolicyPurchases {

  import opened Common
  import opened Schema
  import opened Store
  import Policyholders

  const MissingFields := "Missing required fields: productId, startDate, and endDate are required."
  const ProductNotFound := "Product not found"
  const PurchaseFailed := "Failed to purchase policy"

  /** The row `/buy` inserts: bought today, valid until the given end date,
      purchase and payment both 'pending'. The start date is checked for
      presence but not stored. */
  function BoughtRow(caller: int, productId: int, endDate: string): PolicyPurchase
  {
    PolicyPurchase(Some(caller), None, Some(productId), Some(CurrentDate), Some(Literal(endDate)), "pending", Some("pending"))
  }

  /** POST /policyPurchase/buy. Unlike `/products/buy`, an unapproved product
      can be bought. */
  method Buy(db: Database, caller: int, productId: Option<int>, startDate: Option<string>, endDate: Option<string>,
             pgDate: string -> bool)
    returns (r: Reply<(int, PolicyPurchase)>)
    requires db.Valid()
    modifies db`purchases, db`nextPurchaseId
    ensures db.Valid()
    ensures !(TruthyNumber(productId) && TruthyText(startDate) && TruthyText(endDate)) ==> r == Err(400, MissingFields)
    ensures TruthyNumber(productId) && TruthyText(startDate) && TruthyText(endDate) ==>
      && (productId.value !in db.products ==> r == Err(404, ProductNotFound))
      && (productId.value in db.products && !pgDate(endDate.value) ==> r == Err(500, PurchaseFailed))
    ensures r.Ok? <==>
      && TruthyNumber(productId) && TruthyText(startDate) && TruthyText(endDate)
      && productId.value in db.products && pgDate(endDate.value)
    ensures r.Err? ==> db.purchases == old(db.purchases) && db.nextPurchaseId == old(db.nextPurchaseId)
    ensures r.Ok? ==>
      var id := old(db.nextPurchaseId);
      var row := BoughtRow(caller, productId.value, endDate.value);
      && id !in old(db.purchases)
      && db.purchases == old(db.purchases)[id := row]
      && db.nextPurchaseId == id + 1
      && r == Ok(201, (id, row))
  {
    if !TruthyNumber(productId) || !TruthyText(startDate) || !TruthyText(endDate) {
      return Err(400, MissingFields);
    }
    if productId.value !in db.products {
      return Err(404, ProductNotFound);
    }
    if !pgDate(endDate.value) {
      return Err(500, PurchaseFailed);
    }
    var id := db.nextPurchaseId;
    var row := BoughtRow(caller, productId.value, endDate.value);
    db.purchases := db.purchases[id := row];
    db.nextPurchaseId := id + 1;
    r := Ok(201, (id, row));
  }

  /** GET /policyPurchase/getPurchases: the purchases whose `user_id` is the
      caller, and no others. */
  function GetPurchases(purchases: map<int, PolicyPurchase>, caller: int): (r: map<int, PolicyPurchase>)
    ensures forall id :: id in r <==> id in purchases && purchases[id].userId == Some(caller)
    ensures forall id :: id in r ==> r[id] == purchases[id]
  {
    map id | id in purchases && purchases[id].userId == Some(caller) :: purchases[id]
  }

  /** A purchase made here is listed for its buyer. */
  lemma BoughtRowListed(purchases: map<int, PolicyPurchase>, caller: int, id: int, productId: int, endDate: string)
    ensures id in GetPurchases(purchases[id := BoughtRow(caller, productId, endDate)], caller)
  {
  }

  /** The two purchase flows do not see each other's rows: a purchase made
      through `/policyholders/purchase` fills `policyholder_id` and leaves
      `user_id` NULL, so this listing never shows it, and a purchase made
      here never shows under `/policyholders/policies`. */
  lemma PurchaseFlowsDisjoint(purchases: map<int, PolicyPurchase>, products: map<int, Product>,
                              caller: int, id: int, productId: int, duration: int, endDate: string)
    ensures id !in GetPurchases(purchases[id := Policyholders.PurchaseRow(caller, productId, duration)], caller)
    ensures id !in Policyholders.PurchasedPolicies(purchases[id := BoughtRow(caller, productId, endDate)], products, caller)
  {
  }
}
