/** The rows of the relational store. A column that may hold NULL is an
    `Option`; a column a handler never leaves NULL is a plain value. Where
    different route files write different columns of one table, the row
    carries all of them. Amounts are integers: the handlers only compare
    them. */
module Schema {

  import opened Common
  import opened Crypto

  /** A DATE value: a literal from the request, `CURRENT_DATE`, or a date
      some months after another (Postgres' `INTERVAL '1 month' * n`). */
  datatype Date = Literal(text: string) | CurrentDate | AddMonths(base: Date, months: int)

  /** Table `policyholders`. */
  datatype Policyholder = Policyholder(name: string, contact: string, password: Digest)

  /** Table `users`; `role` defaults to 'user'. */
  datatype User = User(name: string, email: string, password: Digest, role: string)

  /** Table `policies`. */
  datatype Policy = Policy(
    policyType: string,
    amount: int,
    policyholderId: int,
    startDate: Date,
    endDate: Option<Date>)

  /** Table `insurance_products`; `is_approved` defaults to false. */
  datatype Product = Product(
    title: string,
    description: string,
    coverageAmount: int,
    premium: int,
    duration: int,
    createdBy: Option<int>,
    isApproved: bool)

  /** Table `policy_purchases`; `status` defaults to 'pending'. Some routes fill
      `user_id`, one fills `policyholder_id`. */
  datatype PolicyPurchase = PolicyPurchase(
    userId: Option<int>,
    policyholderId: Option<int>,
    productId: Option<int>,
    purchaseDate: Option<Date>,
    validUntil: Option<Date>,
    status: string,
    paymentStatus: Option<string>)

  /** Table `claims`; `status` defaults to 'pending'. One route writes
      `policy_id`, `amount` and `description`; the others write
      `policy_purchase_id`, `claim_amount`, `approved_by` and
      `rejection_reason`. */
  datatype Claim = Claim(
    policyId: Option<int>,
    amount: Option<int>,
    description: Option<string>,
    policyPurchaseId: Option<int>,
    claimAmount: Option<int>,
    status: Option<string>,
    approvedBy: Option<int>,
    rejectionReason: Option<string>)

  /** Table `transactions`. */
  datatype Transaction = Transaction(
    policyholderId: int,
    productId: Option<int>,
    amount: int,
    transactionType: string)

  /** The `RETURNING id, name, contact` projection of a policyholder: no password. */
  datatype Profile = Profile(id: int, name: string, contact: string)

  function ProfileOf(id: int, p: Policyholder): Profile
  {
    Profile(id, p.name, p.contact)
  }
}
