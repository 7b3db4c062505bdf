/** The policyholder routes: create (which cannot succeed), read, update by
    merging, delete, buy a product as one purchase plus one transaction, and
    list the caller's purchases. `caller` is the id of the authenticated
    policyholder. */
module Policyholders {

  import opened Common
  import opened Crypto
  import opened Schema
  import opened Store
  import opened Auth

  /** GET and PUT /policyholders/:id end their 404 message with a period;
      DELETE does not. */
  const LookupNotFound := "Policyholder not found."
  const DeleteNotFound := "Policyholder not found"
  const BcryptUndefined := "bcrypt is not defined"
  const NotPurchasable := "Product not available for purchase or not approved"

  /** POST /policyholders. The file never imports `bcrypt`, so hashing the
      password throws a ReferenceError before the insert: every request ends
      in 500 with that error's message, and nothing is written. */
  method Create(db: Database, name: Option<string>, contact: Option<string>, password: Option<string>)
    returns (r: Reply<Profile>)
    ensures r == Err(500, BcryptUndefined)
  {
    r := Err(500, BcryptUndefined);
  }

  /** GET /policyholders/:id: the row without its password. */
  function Get(policyholders: map<int, Policyholder>, id: int): (r: Reply<Profile>)
    ensures r.Err? <==> id !in policyholders
    ensures r.Err? ==> r == Err(404, LookupNotFound)
    ensures r.Ok? ==> r == Ok(200, ProfileOf(id, policyholders[id]))
  {
    if id in policyholders then Ok(200, ProfileOf(id, policyholders[id])) else Err(404, LookupNotFound)
  }

  /** The row PUT /policyholders/:id writes: `name || existing.name` and
      `contact || existing.contact`; the password is kept. */
  function Merge(p: Policyholder, name: Option<string>, contact: Option<string>): (r: Policyholder)
    ensures r.password == p.password
    ensures TruthyText(name) ==> r.name == name.value
    ensures !TruthyText(name) ==> r.name == p.name
    ensures TruthyText(contact) ==> r.contact == contact.value
    ensures !TruthyText(contact) ==> r.contact == p.contact
  {
    Policyholder(TextOr(name, p.name), TextOr(contact, p.contact), p.password)
  }

  /** Sending nothing (or empty strings) leaves the row as it was. */
  lemma MergeNothing(p: Policyholder, name: Option<string>, contact: Option<string>)
    requires !TruthyText(name) && !TruthyText(contact)
    ensures Merge(p, name, contact) == p
  {
  }

  /** Sending the same update twice has the effect of sending it once. */
  lemma MergeIdempotent(p: Policyholder, name: Option<string>, contact: Option<string>)
    ensures Merge(Merge(p, name, contact), name, contact) == Merge(p, name, contact)
  {
  }

  /** A later update overrides an earlier one field by field. */
  lemma MergeLastWins(p: Policyholder, name1: Option<string>, contact1: Option<string>, name2: Option<string>, contact2: Option<string>)
    requires TruthyText(name2) && TruthyText(contact2)
    ensures Merge(Merge(p, name1, contact1), name2, contact2) == Merge(p, name2, contact2)
  {
  }

  /** PUT /policyholders/:id. No check that the new contact is free. */
  method Update(db: Database, id: int, name: Option<string>, contact: Option<string>) returns (r: Reply<Profile>)
    requires db.Valid()
    modifies db`policyholders
    ensures db.Valid()
    ensures r.Err? <==> id !in old(db.policyholders)
    ensures r.Err? ==> r == Err(404, LookupNotFound) && db.policyholders == old(db.policyholders)
    ensures r.Ok? ==>
      && db.policyholders == old(db.policyholders)[id := Merge(old(db.policyholders)[id], name, contact)]
      && r == Ok(200, ProfileOf(id, db.policyholders[id]))
  {
    if id !in db.policyholders {
      return Err(404, LookupNotFound);
    }
    var row := Merge(db.policyholders[id], name, contact);
    db.policyholders := db.policyholders[id := row];
    r := Ok(200, ProfileOf(id, row));
  }

  /** Because the update does not check the contact, it can give two rows the
      same contact, which registration alone never does. */
  lemma UpdateCanDuplicateContact()
    ensures var before := map[1 := Policyholder("A", "a@x", Hash("p")), 2 := Policyholder("B", "b@x", Hash("q"))];
      && UniqueContacts(before)
      && !UniqueContacts(before[2 := Merge(before[2], None, Some("a@x"))])
  {
    var before := map[1 := Policyholder("A", "a@x", Hash("p")), 2 := Policyholder("B", "b@x", Hash("q"))];
    var after := before[2 := Merge(before[2], None, Some("a@x"))];
    assert after[1].contact == after[2].contact;
  }

  /** DELETE /policyholders/:id. Rows that refer to the deleted one are not
      modelled. */
  method Delete(db: Database, id: int) returns (r: Reply<()>)
    requires db.Valid()
    modifies db`policyholders
    ensures db.Valid()
    ensures r.Ok? <==> id in old(db.policyholders)
    ensures r.Ok? ==> r == Ok(204, ()) && db.policyholders == old(db.policyholders) - {id}
    ensures r.Err? ==> r == Err(404, DeleteNotFound) && db.policyholders == old(db.policyholders)
  {
    if id !in db.policyholders {
      return Err(404, DeleteNotFound);
    }
    db.policyholders := db.policyholders - {id};
    r := Ok(204, ());
  }

  /** What a successful purchase returns: the new purchase and the new
      transaction, each with its id. */
  datatype Receipt = Receipt(purchaseId: int, purchase: PolicyPurchase, transactionId: int, transaction: Transaction)

  /** The purchase row `/purchase` inserts: the caller as policyholder, valid
      for the product's duration in months from today, status by default
      'pending'. */
  function PurchaseRow(caller: int, productId: int, duration: int): PolicyPurchase
  {
    PolicyPurchase(None, Some(caller), Some(productId), None, Some(AddMonths(CurrentDate, duration)), "pending", None)
  }

  /** POST /policyholders/purchase. The product must exist and be approved;
      then both rows are written, or, on a refusal, neither. */
  method Purchase(db: Database, caller: int, productId: Option<int>) returns (r: Reply<Receipt>)
    requires db.Valid()
    modifies db`purchases, db`nextPurchaseId, db`transactions, db`nextTransactionId
    ensures db.Valid()
    ensures r.Ok? <==> productId.Some? && productId.value in db.products && db.products[productId.value].isApproved
    ensures r.Err? ==>
      && r == Err(400, NotPurchasable)
      && db.purchases == old(db.purchases) && db.nextPurchaseId == old(db.nextPurchaseId)
      && db.transactions == old(db.transactions) && db.nextTransactionId == old(db.nextTransactionId)
    ensures r.Ok? ==>
      var product := db.products[productId.value];
      var p := old(db.nextPurchaseId);
      var t := old(db.nextTransactionId);
      var purchase := PurchaseRow(caller, productId.value, product.duration);
      var transaction := Transaction(caller, productId, product.premium, "purchase");
      && p !in old(db.purchases) && t !in old(db.transactions)
      && db.purchases == old(db.purchases)[p := purchase] && db.nextPurchaseId == p + 1
      && db.transactions == old(db.transactions)[t := transaction] && db.nextTransactionId == t + 1
      && r == Ok(201, Receipt(p, purchase, t, transaction))
  {
    if productId.None? || productId.value !in db.products || !db.products[productId.value].isApproved {
      return Err(400, NotPurchasable);
    }
    var product := db.products[productId.value];
    var p := db.nextPurchaseId;
    var purchase := PurchaseRow(caller, productId.value, product.duration);
    db.purchases := db.purchases[p := purchase];
    db.nextPurchaseId := p + 1;
    var t := db.nextTransactionId;
    var transaction := Transaction(caller, productId, product.premium, "purchase");
    db.transactions := db.transactions[t := transaction];
    db.nextTransactionId := t + 1;
    r := Ok(201, Receipt(p, purchase, t, transaction));
  }

  /** A row of GET /policyholders/policies: the purchase's dates and status
      with its product's title, description and coverage. */
  datatype PurchasedPolicy = PurchasedPolicy(
    purchaseDate: Option<Date>,
    validUntil: Option<Date>,
    status: string,
    title: string,
    description: string,
    coverageAmount: int)

  /** The join `policy_purchases p JOIN insurance_products i ON p.product_id =
      i.id WHERE p.policyholder_id = caller`. */
  predicate BoughtBy(p: PolicyPurchase, products: map<int, Product>, caller: int)
  {
    p.policyholderId == Some(caller) && p.productId.Some? && p.productId.value in products
  }

  /** GET /policyholders/policies: the caller's purchases that name an
      existing product, each with that product's details. */
  function PurchasedPolicies(purchases: map<int, PolicyPurchase>, products: map<int, Product>, caller: int)
    : (r: map<int, PurchasedPolicy>)
    ensures forall id :: id in r <==> id in purchases && BoughtBy(purchases[id], products, caller)
    ensures forall id :: id in r ==>
      && id in purchases && BoughtBy(purchases[id], products, caller)
      && var p := purchases[id];
         var i := products[p.productId.value];
         r[id] == PurchasedPolicy(p.purchaseDate, p.validUntil, p.status, i.title, i.description, i.coverageAmount)
  {
    map id | id in purchases && BoughtBy(purchases[id], products, caller) ::
      var p := purchases[id];
      var i := products[p.productId.value];
      PurchasedPolicy(p.purchaseDate, p.validUntil, p.status, i.title, i.description, i.coverageAmount)
  }

  /** A purchase made through `/purchase` is listed for its buyer, and for no
      one else. */
  lemma PurchaseListedForBuyer(purchases: map<int, PolicyPurchase>, products: map<int, Product>,
                               caller: int, other: int, id: int, productId: int)
    requires productId in products && other != caller
    ensures var after := purchases[id := PurchaseRow(caller, productId, products[productId].duration)];
      && id in PurchasedPolicies(after, products, caller)
      && id !in PurchasedPolicies(after, products, other)
  {
  }
}
