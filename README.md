# Claims-management API: a Dafny model of its route handlers

This project models the decision logic of a small Express/Postgres
claims-management REST API. Policyholders register and log in, users buy
insurance products, policyholders file claims against policies, and
administrators approve or deny purchases and claims.

The model has these parts:

- **The store.** `Store.Database` is a class holding one map from
  serial id to row per table: policyholders, users, policies, insurance
  products, policy purchases, claims and transactions. It also holds the
  next value of each table's SERIAL sequence. `Valid()` says that every id
  of a table was handed out by its sequence, so a fresh id is never already
  taken. Rows are datatypes in `Schema`; a nullable column is an `Option`.
- **Route handlers.** Each route that writes becomes a module-level
  method that takes the `db: Database` object, with a field-level
  `modifies` frame (for example `modifies db`claims, db`nextClaimId`). Its
  `ensures` states the reply for every input, including each early error
  reply and its order, and the complete new state of the tables it
  touches. Each read-only route becomes a function over the maps, except
  `Auth.Login`. That one is a method because it picks one matching row, as
  the query's first result does. A filter states both directions of the
  membership test and the rows it returns.
- **Request-body truthiness.** JavaScript's `!x` on a body field is
  modelled explicitly. `TruthyText` means the field is present and not
  `""`. `TruthyNumber` means it is present and not `0`. `x || null` and
  `x || fallback` are `TextOrNull`, `NumberOrNull` and `TextOr` in
  `Common`.
- **The authentication middleware.** `AuthMiddleware.Authenticate` is a
  pure function of the `Authorization` header and of the token verifier,
  which is a parameter. It is built on a model of `String.prototype.split`.
  A characterisation lemma says which reply each header gets, read off the
  header itself.
- **The mail template step.** `Mail.CustomizeTemplate` is the loop of
  `sendEmail` that calls `replace` once per replacement entry. It is proved
  against `SubstituteAll`, a left fold of `ReplaceFirst`. `ReplaceFirst`
  models `String.prototype.replace` with a string pattern: only the first
  match is replaced, and `$$`, `$&`, `` $` `` and `$'` in the value are
  expanded.
- **Crypto, clocks and the database's own parsing.** These are kept
  abstract:
  - A bcrypt digest and a JWT are symbolic terms (`Crypto`). The only
    facts used are that a password matches its own digest and no other
    password's.
  - JavaScript's `Date` parsing (`jsDate`) and Postgres' DATE input
    parsing (`pgDate`) are predicates passed to the handlers that need
    them.
  - Today's date is `Schema.CurrentDate`. `toLocaleDateString()` is passed
    in as a string.

Where the routes' own API comments or the tests expect one thing and the
code does another, the model follows the code:

- routes/claims.js:119-120 documents a 400 "Invalid status transition"
  for `PUT /claims/:id`. The transition table at routes/claims.js:23-28 is
  declared, but no route consults it, so any status is written.
- tests/integration.test.js:147-158 expects a duplicate claim to be
  refused. No claims route checks for duplicates. `POST /claims` takes a
  policy id, and the `/claims/claimtriggered` route that test posts to
  does not exist.
- tests/claims.test.js:107-113 expects 401 for an invalid token. The
  middleware answers 403 for a token that fails verification.
- tests/integration.test.js:194-200 sends `PUT /admin/approveClaim/999999`
  and expects 404. routes/admin.js:498 declares only a `POST` route for
  that path, so the test's 404 is the application's "Endpoint not found"
  fallback (app.js:87-89). The `POST` route, which `Admin.ApproveClaim`
  models, answers 500 for an absent claim. Reading the missing row's
  `user_id` throws at routes/admin.js:518, after an `UPDATE` that matched
  nothing.

## Model

| member | source | states |
|---|---|---|
| Common.TextOrNull | routes/admin.js:507 | `x \|\| null` on a string: the result is present exactly when the field is truthy, and then it is the field |
| Common.NumberOrNull | routes/claimsCRUD.js:82 | `x \|\| null` on a number: present exactly when the field is present and non-zero, and then it is the field |
| Common.TextOr | routes/admin.js:529 | `x \|\| fallback`: the field when truthy, the fallback otherwise |
| Common.Decimal | routes/claims.js:79 | `${n}` renders an integer as a non-empty decimal string |
| Common.DigitsRoundTrip | routes/claims.js:79 | reading the digits of a natural number back gives the number |
| Common.DecimalRoundTrip | routes/claims.js:79 | the rendering of an integer is injective: reading it back gives the integer |
| Crypto.CompareOwnHash | routes/auth.js:64-67 | a password matches the digest register stores for it |
| Crypto.CompareOtherHash | routes/auth.js:124-125 | a different password does not match that digest |
| Store.Database.constructor | jest.setup.js:13-48 | a store with the given users and empty other tables satisfies `Valid()` |
| AuthMiddleware.Split | middleware/authMiddleware.js:10 | `split(' ')` yields at least one part and no part contains the separator |
| AuthMiddleware.JoinSplit | middleware/authMiddleware.js:10 | splitting loses nothing: joining the parts with the separator gives the header back |
| AuthMiddleware.SplitLength | middleware/authMiddleware.js:10-11 | the number of parts is the number of separators plus one |
| AuthMiddleware.SplitFirst | middleware/authMiddleware.js:10-15 | the first part is the text before the first separator; the further parts are the split of the text after it |
| AuthMiddleware.SplitInTwo | middleware/authMiddleware.js:10-15 | a header with exactly one space splits into the text before it and the text after it |
| AuthMiddleware.AuthenticateCharacterized | middleware/authMiddleware.js:4-33 | missing or empty header gives 401; a header without exactly one space gives 401; a scheme other than "Bearer" in any letter case gives 401; a failed verification gives 403; otherwise the subject is `{id: userId, role}` of the verified token; the first failing check decides |
| Mail.IndexOf | mail.js:31 | the search finds an occurrence of the pattern at or after the start, and no earlier one; "not found" means there is none |
| Mail.CustomizeTemplate | mail.js:29-32 | the loop's result is the fold of first-occurrence replacement over the entries in order |
| Mail.SendEmail | mail.js:22-40 | a failed template read builds no message; otherwise the message goes to the given address with the given subject and the substituted template |
| Mail.ExpandWithoutDollar | mail.js:31 | a replacement value without `$` is inserted literally |
| Mail.ReplaceFirstOccurrence | mail.js:31 | with a `$`-free value, the first occurrence of the placeholder is replaced by the value and the text around it is kept |
| Mail.ReplaceAbsent | mail.js:31 | a text without the placeholder is unchanged |
| Mail.SecondOccurrenceSurvives | mail.js:31 | only the first occurrence is replaced: a later non-overlapping occurrence survives |
| Mail.NoPlaceholderUnchanged | mail.js:29-32 | a template holding no placeholder of any entry comes out unchanged |
| Mail.SubstituteAllSnoc | mail.js:29-32 | substitution is sequential, for all templates and entries: the last entry is applied to the text all earlier entries produced |
| Mail.SequentialSubstitution | mail.js:30-32 | for example, a placeholder that an earlier value brings in is filled by a later entry |
| Mail.DollarAmpersandKeepsPlaceholder | mail.js:31 | for every text and pattern, a value `$&` puts the matched text back, so the text comes out unchanged instead of receiving the literal value |
| Claims.TransitionTable | routes/claims.js:23-28 | the table allows exactly pending to approved or denied and approved to paid; denied and paid have no successors |
| Claims.ExceedsLimitNamesBoth | routes/claims.js:79 | the over-limit message contains both the claim amount and the policy limit, and each reads back |
| Claims.Create | routes/claims.js:62-91 | 400 when policyId or amount is falsy, before any lookup; 404 with no write for an absent policy; 400 exactly when amount exceeds the policy amount (equality allowed); else exactly one new claim with that policy, amount, description and status pending, at a fresh id |
| Claims.UpdateStatus | routes/claims.js:128-154 | the same 403 for an absent claim and for another policyholder's; otherwise the status becomes the value sent, whatever it was, and nothing else changes |
| Claims.Delete | routes/claims.js:180-190 | no ownership check: 404 exactly when absent, else only that claim is removed and the reply is 204 |
| Claims.ListOwned | routes/claims.js:211-224 | a claim is listed exactly when its policy belongs to the caller |
| Claims.GetOwned | routes/claims.js:253-270 | 200 exactly for a listed claim; the same 404 for absent and not-owned claims |
| Claims.ForeignClaimHidden | routes/claims.js:253-264 | another policyholder's claim is unlisted and reads exactly as if it did not exist |
| Admin.ListUsers | routes/admin.js:266-275 | 403 unless the role is admin; otherwise every user, without password |
| Admin.RecipientEmail | routes/admin.js:283-289 | an address is found exactly for an existing row with role 'user' |
| Admin.OnlyUsersAreNotified | routes/admin.js:283-289 | an admin's row never yields a recipient |
| Admin.ApprovePolicy | routes/admin.js:336-379 | 403 with no write unless admin; an absent purchase gives 500 and no write; otherwise the status becomes approved or denied whatever it was, the reply is 200 `Policy <status>`, and a mail with the fixed subject, template and replacements is attempted exactly when the buyer is a 'user' with a non-empty address |
| Admin.ApproveClaim | routes/admin.js:498-541 | 403 with no write unless admin; an absent claim gives 500 and no write; otherwise status and `rejection_reason \|\| null` are written even on approval; a claim without a joinable purchase then gives 500; else the reply is 200 `Claim <status>` and the mail is attempted exactly when the buyer is a 'user' with a non-empty address |
| Admin.PendingPolicies | routes/admin.js:401-412 | exactly the purchases with status 'pending', unchanged, with no admin gate |
| Admin.PendingClaims | routes/admin.js:434-448 | exactly the pending claims whose purchase and user both exist, each with the buyer's id and address |
| Admin.DecisionClearsPendingPolicy | routes/admin.js:342-412 | a decided purchase leaves the pending list and no other purchase enters or leaves it |
| Admin.DecisionClearsPendingClaim | routes/admin.js:434-508 | a decided claim leaves the pending-claims list and no other row of it changes |
| Products.Create | routes/products.js:73-90 | 400 with no write unless all five fields are truthy (so duration 0 is refused); else one new product created by the caller and not approved |
| Products.Approved | routes/products.js:19-31 | exactly the approved products |
| Products.Mine | routes/products.js:106-116 | exactly the products the caller created, approved or not |
| Products.View | routes/products.js:142-160 | 404 exactly when absent; 403 exactly for an unapproved product the caller neither created nor administers; 200 with the product exactly in every other case |
| Products.ViewMatchesListings | routes/products.js:19-160 | a non-admin can read a product exactly when one of the two listings shows it to them |
| Products.Delete | routes/products.js:186-204 | 404 exactly when absent; 403 exactly when the caller is neither creator nor admin; 500 with no write exactly when the creator or an admin deletes a product some purchase refers to; success exactly for the creator or an admin on a product nobody bought, and then only that product is removed, with 204 |
| Products.Buy | routes/products.js:241-273 | 400 when productId, startDate or endDate is falsy; 404 for an absent or unapproved product; 500 when Postgres rejects a date; else one pending purchase by the caller with those dates |
| Products.BuyProduct | routes/products.js:337-349 | no checks at all: one new purchase by the caller for the product sent, reply 200 |
| Policies.EndDateOf | routes/policies.js:81-84 | an end date is stored exactly when one was sent, as sent |
| Policies.Create | routes/policies.js:52-94 | in order: 400 for a falsy required field; 400 for a start date `Date` cannot parse; 400 for a non-empty unparsable end date; 404 for an absent policyholder; 400 when Postgres rejects a date, an empty end date included; else exactly one new policy with the fields sent |
| Policies.List | routes/policies.js:114-121 | every policy, regardless of owner |
| Policies.Get | routes/policies.js:150-159 | 200 exactly for a listed policy, with no ownership check; 404 otherwise |
| Policies.Delete | routes/policies.js:187-196 | 404 exactly when absent, else only that policy is removed |
| Policies.DeletedPolicyGone | routes/policies.js:150-196 | after a delete, reading the policy gives 404 |
| Auth.Register | routes/auth.js:51-75 | 400 for a falsy field; 409 with no write when the contact is taken; else one new row storing the digest, and the reply is the row without the password; unique contacts stay unique |
| Auth.InsertKeepsContactsUnique | routes/auth.js:59-68 | inserting a row with a fresh contact keeps contacts unique |
| Auth.Login | routes/auth.js:113-136 | 400 for a falsy field; the same 401 for an unknown contact and a wrong password; success only for a row with that contact whose digest matches, and the token signs `{policyholderId: id}`; a matching row always succeeds when it is the only row with that contact, so with unique contacts every matching row does |
| Auth.Me | routes/auth.js:170-185 | 404 exactly when the caller has no row, else the row without the password |
| Auth.RegisterThenLogIn | tests/claims.test.js:14-26 | for any store where the contact is free, registering and then logging in with the same non-empty credentials gives 200 and a token for the new row |
| Policyholders.Create | routes/policyholders.js:45-58 | `bcrypt` is never imported, so every request ends in 500 "bcrypt is not defined" and nothing is written |
| Policyholders.Get | routes/policyholders.js:105-114 | 404 exactly when absent, else the row without the password |
| Policyholders.Merge | routes/policyholders.js:156-158 | each of name and contact takes the new value when truthy and keeps the old one otherwise; the password is kept |
| Policyholders.MergeNothing | routes/policyholders.js:156-158 | an update with no truthy field leaves the row as it was |
| Policyholders.MergeIdempotent | routes/policyholders.js:156-158 | sending the same update twice equals sending it once |
| Policyholders.MergeLastWins | routes/policyholders.js:156-158 | a full later update overrides any earlier one |
| Policyholders.Update | routes/policyholders.js:149-165 | 404 exactly when absent; else the row becomes the merge and nothing else changes |
| Policyholders.UpdateCanDuplicateContact | routes/policyholders.js:156-158 | the update does not check the contact, so it can break the uniqueness that registration keeps |
| Policyholders.Delete | routes/policyholders.js:190-199 | 404 exactly when absent, else only that row is removed |
| Policyholders.Purchase | routes/policyholders.js:256-303 | 400 and neither table written for an absent or unapproved product; else both a purchase valid for the product's duration in months from today and a 'purchase' transaction for its premium |
| Policyholders.PurchasedPolicies | routes/policyholders.js:239-253 | exactly the caller's purchases that join a product, with that product's details |
| Policyholders.PurchaseListedForBuyer | routes/policyholders.js:241-282 | a purchase made there is listed for its buyer and for no one else |
| PolicyPurchases.Buy | routes/policyPurchase.js:81-117 | 400 for a falsy field; 404 for an absent product, approved or not; 500 when Postgres rejects the end date; else one purchase by the caller dated today, valid until the end date, purchase and payment pending; the start date is not stored |
| PolicyPurchases.GetPurchases | routes/policyPurchase.js:163-174 | exactly the purchases whose user is the caller |
| PolicyPurchases.BoughtRowListed | routes/policyPurchase.js:102-169 | a purchase made there is listed for its buyer |
| PolicyPurchases.PurchaseFlowsDisjoint | routes/policyPurchase.js:165-169 | a purchase made by a policyholder is never listed by this route, and one made here never appears among a policyholder's policies |
| ClaimsCrud.NewClaim | routes/claimsCRUD.js:75-82 | status defaults to 'pending', approved_by and rejection_reason to NULL when falsy; purchase and amount as sent |
| ClaimsCrud.Create | routes/claimsCRUD.js:74-89 | no validation: exactly one new claim with those defaults, reply 201 |
| ClaimsCrud.LeastIdExists | routes/claimsCRUD.js:111 | every non-empty set of ids has a least element |
| ClaimsCrud.PrependLeast | routes/claimsCRUD.js:111 | putting the least id's row in front of a listing of the rest lists the whole table in order |
| ClaimsCrud.InIdOrder | routes/claimsCRUD.js:111 | every claim exactly once, with its row, in strictly increasing id order |
| ClaimsCrud.List | routes/claimsCRUD.js:109-117 | the listing is 200 and has the properties of `InIdOrder` |
| ClaimsCrud.Get | routes/claimsCRUD.js:144-156 | 404 exactly when absent, else the row |
| ClaimsCrud.GetAgreesWithList | routes/claimsCRUD.js:109-156 | a claim can be read exactly when it is listed, and both give the same row |
| ClaimsCrud.Update | routes/claimsCRUD.js:205-224 | 404 exactly when absent; else all five columns take the values sent, missing ones becoming NULL |
| ClaimsCrud.Delete | routes/claimsCRUD.js:255-270 | 404 exactly when absent, else only that claim is removed and the reply is 200 with a message |
| Users.GetProfile | routes/users.js:55-65 | 200; the body is the caller's row without the password, or empty when there is none |
| Users.Renamed | routes/users.js:110-116 | the update changes only the caller's name and email; nothing changes when the caller has no row |
| Users.UpdateProfile | routes/users.js:102-121 | 400 with no write unless name and email are truthy; 500 with no write when another row holds the address; else only the caller's name and email change |
| Users.UpdateProfileUnchecked | routes/users.js:156-168 | no validation: with a caller row, 500 and no write exactly for a missing field or a taken address, otherwise only the caller's name and email change (an empty string is stored) and the reply is the whole row; without one, 200 with an empty body; every error is that 500 |
| Users.RenamedKeepsEmailsUnique | routes/users.js:110-116 | an update to an address no other row holds keeps addresses unique |

## Left out

- HTTP wiring is not modelled: the Express app, middleware stacking, helmet, cors, metrics and logging. Route order is not modelled either. For example, `GET /products/myPolicies` and `GET /policyholders/policies` are shadowed by the `/:id` routes declared before them. The handlers are modelled as if each one were reached.
- The identity fields do not agree in the code. The login token carries `policyholderId`. The middleware reads `userId`. Several handlers read `req.policyholder`. Every handler instead receives the caller's id and role directly, so the failures this mismatch causes are not modelled.
- Path parameters are integers. A non-numeric id, which makes Postgres fail with 500, is not modelled.
- `/products/myPolicies` is not modelled; `GET /products/:id` shadows it.
- Four read-only policyholder routes are not modelled:
  - `GET /` (routes/policyholders.js:74) lists every policyholder.
  - `/me` (routes/policyholders.js:219) is a stub.
  - `/products` (routes/policyholders.js:227) lists the approved products.
  - `/transactions` (routes/policyholders.js:306) is a join.

  `GET /policyholders/:id` (routes/policyholders.js:105) is declared first, so `/me`, `/products` and `/transactions` are unreachable behind it.
- routes/transactions.js and controllers/transactions.js are not part of this model.
- `GET /policyholders/profile` (routes/policyholders.js:325) and `PUT /policyholders/profile` (routes/policyholders.js:340) are shadowed by `GET /:id` and `PUT /:id`, which are declared before them. They are not modelled. The `PUT` route writes, but it sets an `email` column that the `policyholders` rows in this model do not have.
- Cryptography is symbolic. bcrypt's salt, its 72-byte limit, JWT secrets and expiry are not modelled, and token verification is a parameter.
- Dates are not computed. JavaScript `Date` parsing and Postgres DATE parsing are predicates passed in. Month arithmetic is the symbolic `AddMonths`.
- Amounts are integers. Postgres NUMERIC values reach JavaScript as strings, and comparing them with the amount from the request is not modelled.
- Most constraints are not modelled: foreign keys, policyholder-contact uniqueness, and NOT NULL other than on `users`.
  - An insert that such a constraint would refuse succeeds in the model.
  - Policies.Delete and Policyholders.Delete always succeed in the model. In the database, a row that other rows still refer to may be refused: the `policies` and `policyholders` schemas are not part of this model, and the tests delete child tables first.
  - Products.Delete does model the one foreign key on a deleted table that is shown, `policy_purchases.product_id` (jest.setup.js:35). It has no cascade, so deleting a product that has been bought answers 500.
  - Unique and NOT NULL on `users.email`, and NOT NULL on `users.name`, are modelled.
- A failed insert in the model does not use up a sequence value, as it does in Postgres. Row order is not modelled where the SQL gives none or orders by `created_at`. Listings are maps from id to row, and column projections are shown only where they hide the password.
- A storage failure that the code maps to 500 with the driver's message is not modelled, except where listed above.
- Mail delivery, the transporter and its credentials are not modelled. File reading is the `templateFile` parameter. A notice is the `sendEmail` call a handler makes.
- Concurrency is not modelled. `/policyholders/purchase` is atomic, as its `BEGIN`/`COMMIT` intend, although the statements go to a pool.
- Admin.ApproveClaim: the `decision` entry of the mail is "true" or "false", which is what a boolean `decision` gives. Any other truthy or falsy value is reduced to a boolean first, and its own string form is not modelled.
- Auth.Login: when several rows share a contact, the contract promises only that a success is for one of them. It does not say which row the query returns first.
- Policies.Create: every date Postgres rejects is treated as error 22007. A date the driver reports as 22008 (out of range) gives 500 in the code, and the model answers 400 for it.
