/** The insurance-product routes: submit a product, list and read products
    subject to approval, delete one, and buy one through `/buy` or
    `/buyProduct`. `caller` and `role` are the subject the middleware set;
    `pgDate` says which strings Postgres accepts as a DATE. */
module Products {

  import opened Common
  import opened Schema
  import opened Store
  import opened AuthMiddleware

  const AllFieldsRequired := "All fields are required"
  const ProductNotFound := "Product not found"
  const AccessDenied := "Access denied"
  const BuyFieldsRequired := "All fields (productId, startDate, endDate) are required"
  const NotFoundOrNotApproved := "Product not found or not approved"
  const PurchaseFailed := "Failed to purchase product"
  const DeleteFailed := "Failed to delete product"

  /** The row POST /products inserts: the caller as creator, not approved
      (the column default). */
  function SubmittedProduct(title: string, description: string, coverage: int, premium: int, duration: int, caller: int)
    : Product
  {
    Product(title, description, coverage, premium, duration, Some(caller), false)
  }

  /** POST /products. Every field must be truthy, so a duration of 0 is
      refused although the route's documentation calls 0 "lifetime". */
  method Create(db: Database, caller: int, title: Option<string>, description: Option<string>,
                coverage: Option<int>, premium: Option<int>, duration: Option<int>)
    returns (r: Reply<(int, Product)>)
    requires db.Valid()
    modifies db`products, db`nextProductId
    ensures db.Valid()
    ensures r.Ok? <==>
      TruthyText(title) && TruthyText(description) && TruthyNumber(coverage) && TruthyNumber(premium) && TruthyNumber(duration)
    ensures r.Err? ==>
      r == Err(400, AllFieldsRequired) && db.products == old(db.products) && db.nextProductId == old(db.nextProductId)
    ensures r.Ok? ==>
      var id := old(db.nextProductId);
      var row := SubmittedProduct(title.value, description.value, coverage.value, premium.value, duration.value, caller);
      && id !in old(db.products)
      && db.products == old(db.products)[id := row]
      && db.nextProductId == id + 1
      && r == Ok(201, (id, row))
  {
    if !TruthyText(title) || !TruthyText(description) || !TruthyNumber(coverage)
      || !TruthyNumber(premium) || !TruthyNumber(duration)
    {
      return Err(400, AllFieldsRequired);
    }
    var id := db.nextProductId;
    var row := SubmittedProduct(title.value, description.value, coverage.value, premium.value, duration.value, caller);
    db.products := db.products[id := row];
    db.nextProductId := id + 1;
    r := Ok(201, (id, row));
  }

  /** GET /products: the approved products and no others. */
  function Approved(products: map<int, Product>): (r: map<int, Product>)
    ensures forall id :: id in r <==> id in products && products[id].isApproved
    ensures forall id :: id in r ==> r[id] == products[id]
  {
    map id | id in products && products[id].isApproved :: products[id]
  }

  /** GET /products/mine: the products the caller submitted, approved or not. */
  function Mine(products: map<int, Product>, caller: int): (r: map<int, Product>)
    ensures forall id :: id in r <==> id in products && products[id].createdBy == Some(caller)
    ensures forall id :: id in r ==> r[id] == products[id]
  {
    map id | id in products && products[id].createdBy == Some(caller) :: products[id]
  }

  /** The access rule of GET /products/:id: approved, or the caller's own,
      or the caller is an admin. */
  predicate MayView(p: Product, caller: int, role: Option<string>)
  {
    p.isApproved || p.createdBy == Some(caller) || IsAdminRole(role)
  }

  /** GET /products/:id. */
  function View(products: map<int, Product>, caller: int, role: Option<string>, id: int): (r: Reply<Product>)
    ensures id !in products <==> r == Err(404, ProductNotFound)
    ensures id in products && !MayView(products[id], caller, role) <==> r == Err(403, AccessDenied)
    ensures r.Ok? <==> id in products && MayView(products[id], caller, role)
    ensures r.Ok? ==> r == Ok(200, products[id])
  {
    if id !in products then Err(404, ProductNotFound)
    else if !MayView(products[id], caller, role) then Err(403, AccessDenied)
    else Ok(200, products[id])
  }

  /** A non-admin can read exactly the products that one of the two listings
      shows them: GET /products or GET /products/mine. */
  lemma ViewMatchesListings(products: map<int, Product>, caller: int, role: Option<string>, id: int)
    requires !IsAdminRole(role)
    ensures View(products, caller, role, id).Ok? <==> id in Approved(products) || id in Mine(products, caller)
  {
  }

  /** Some purchase refers to the product, so the foreign key
      `policy_purchases.product_id REFERENCES insurance_products(id)`, which
      has no cascade, refuses to delete it. */
  predicate Bought(purchases: map<int, PolicyPurchase>, id: int)
  {
    exists k :: k in purchases && purchases[k].productId == Some(id)
  }

  /** DELETE /products/:id: only the creator or an admin, whether or not the
      product is approved; a product that has been bought cannot be deleted,
      and the failed DELETE answers 500. */
  method Delete(db: Database, caller: int, role: Option<string>, id: int) returns (r: Reply<()>)
    requires db.Valid()
    modifies db`products
    ensures db.Valid()
    ensures id !in old(db.products) <==> r == Err(404, ProductNotFound)
    ensures (id in old(db.products) && old(db.products)[id].createdBy != Some(caller) && !IsAdminRole(role)) <==>
      r == Err(403, AccessDenied)
    ensures (id in old(db.products) && (old(db.products)[id].createdBy == Some(caller) || IsAdminRole(role))
      && Bought(db.purchases, id)) <==> r == Err(500, DeleteFailed)
    ensures r.Ok? <==>
      && id in old(db.products) && (old(db.products)[id].createdBy == Some(caller) || IsAdminRole(role))
      && !Bought(db.purchases, id)
    ensures r.Err? ==> db.products == old(db.products)
    ensures r.Ok? ==> r == Ok(204, ()) && db.products == old(db.products) - {id}
  {
    if id !in db.products {
      return Err(404, ProductNotFound);
    }
    if db.products[id].createdBy != Some(caller) && !IsAdminRole(role) {
      return Err(403, AccessDenied);
    }
    if Bought(db.purchases, id) {
      return Err(500, DeleteFailed);
    }
    db.products := db.products - {id};
    r := Ok(204, ());
  }

  /** POST /products/buy. The product must exist and be approved; the dates
      are stored as sent, and a string Postgres cannot read as a DATE makes
      the insert fail with 500. */
  method Buy(db: Database, caller: int, productId: Option<int>, startDate: Option<string>, endDate: Option<string>,
             pgDate: string -> bool)
    returns (r: Reply<(int, PolicyPurchase)>)
    requires db.Valid()
    modifies db`purchases, db`nextPurchaseId
    ensures db.Valid()
    ensures !(TruthyNumber(productId) && TruthyText(startDate) && TruthyText(endDate)) ==>
      r == Err(400, BuyFieldsRequired)
    ensures TruthyNumber(productId) && TruthyText(startDate) && TruthyText(endDate) ==>
      && ((productId.value !in db.products || !db.products[productId.value].isApproved) ==>
            r == Err(404, NotFoundOrNotApproved))
      && ((productId.value in db.products && db.products[productId.value].isApproved
           && !(pgDate(startDate.value) && pgDate(endDate.value))) ==>
            r == Err(500, PurchaseFailed))
    ensures r.Ok? <==>
      && TruthyNumber(productId) && TruthyText(startDate) && TruthyText(endDate)
      && productId.value in Approved(db.products)
      && pgDate(startDate.value) && pgDate(endDate.value)
    ensures r.Err? ==> db.purchases == old(db.purchases) && db.nextPurchaseId == old(db.nextPurchaseId)
    ensures r.Ok? ==>
      var id := old(db.nextPurchaseId);
      var row := PolicyPurchase(Some(caller), None, productId, Some(Literal(startDate.value)),
                                Some(Literal(endDate.value)), "pending", None);
      && id !in old(db.purchases)
      && db.purchases == old(db.purchases)[id := row]
      && db.nextPurchaseId == id + 1
      && r == Ok(201, (id, row))
  {
    if !TruthyNumber(productId) || !TruthyText(startDate) || !TruthyText(endDate) {
      return Err(400, BuyFieldsRequired);
    }
    if productId.value !in db.products || !db.products[productId.value].isApproved {
      return Err(404, NotFoundOrNotApproved);
    }
    if !pgDate(startDate.value) || !pgDate(endDate.value) {
      return Err(500, PurchaseFailed);
    }
    var id := db.nextPurchaseId;
    var row := PolicyPurchase(Some(caller), None, productId, Some(Literal(startDate.value)),
                              Some(Literal(endDate.value)), "pending", None);
    db.purchases := db.purchases[id := row];
    db.nextPurchaseId := id + 1;
    r := Ok(201, (id, row));
  }

  /** POST /products/buyProduct: no field check, no existence or approval
      check; the purchase gets the caller, the given product (NULL when none
      was sent) and the default status. */
  method BuyProduct(db: Database, caller: int, productId: Option<int>) returns (r: Reply<(int, PolicyPurchase)>)
    requires db.Valid()
    modifies db`purchases, db`nextPurchaseId
    ensures db.Valid()
    ensures
      var id := old(db.nextPurchaseId);
      var row := PolicyPurchase(Some(caller), None, productId, None, None, "pending", None);
      && id !in old(db.purchases)
      && db.purchases == old(db.purchases)[id := row]
      && db.nextPurchaseId == id + 1
      && r == Ok(200, (id, row))
  {
    var id := db.nextPurchaseId;
    var row := PolicyPurchase(Some(caller), None, productId, None, None, "pending", None);
    db.purchases := db.purchases[id := row];
    db.nextPurchaseId := id + 1;
    r := Ok(200, (id, row));
  }
}
