/** The database every route file shares: one map from serial id to row per
    table, and for each table the next value its SERIAL sequence hands out. */
module Store {

  import opened Schema

  /** Every id of a table was handed out by its sequence, which starts at 1. */
  ghost predicate IdsBelow<T>(table: map<int, T>, next: int)
  {
    1 <= next && forall id :: id in table ==> 1 <= id < next
  }

  class Database {
    var policyholders: map<int, Policyholder>
    var users: map<int, User>
    var policies: map<int, Policy>
    var products: map<int, Product>
    var purchases: map<int, PolicyPurchase>
    var claims: map<int, Claim>
    var transactions: map<int, Transaction>

    var nextPolicyholderId: int
    var nextPolicyId: int
    var nextProductId: int
    var nextPurchaseId: int
    var nextClaimId: int
    var nextTransactionId: int

    /** A fresh id from a sequence is never already a key of its table. */
    ghost predicate Valid()
      reads this
    {
      && IdsBelow(policyholders, nextPolicyholderId)
      && IdsBelow(policies, nextPolicyId)
      && IdsBelow(products, nextProductId)
      && IdsBelow(purchases, nextPurchaseId)
      && IdsBelow(claims, nextClaimId)
      && IdsBelow(transactions, nextTransactionId)
    }

    /** A store holding the given users (the core never inserts a user) and
        nothing else. */
    constructor (users: map<int, User>)
      ensures Valid()
      ensures this.users == users
      ensures policyholders == map[] && policies == map[] && products == map[]
      ensures purchases == map[] && claims == map[] && transactions == map[]
    {
      this.users := users;
      policyholders, policies, products := map[], map[], map[];
      purchases, claims, transactions := map[], map[], map[];
      nextPolicyholderId, nextPolicyId, nextProductId := 1, 1, 1;
      nextPurchaseId, nextClaimId, nextTransactionId := 1, 1, 1;
    }
  }
}
