/** Password hashing and token signing, kept abstract. A bcrypt digest and a
    signed token are symbolic terms: only what the handlers rely on is
    modelled, namely that a password matches its own digest and no other
    password's. */
module Crypto {

  import opened Common

  /** `bcrypt.hash(password, 10)`; the salt is not modelled. */
  datatype Digest = Bcrypt(secret: string)

  function Hash(password: string): Digest
  {
    Bcrypt(password)
  }

  /** `bcrypt.compare(password, digest)`. */
  predicate Compare(password: string, digest: Digest)
  {
    digest.secret == password
  }

  lemma CompareOwnHash(password: string)
    ensures Compare(password, Hash(password))
  {
  }

  lemma CompareOtherHash(password: string, other: string)
    requires password != other
    ensures !Compare(password, Hash(other))
  {
  }

  /** The payload `jwt.sign` is given at login: `{ policyholderId: id }`. */
  datatype LoginPayload = LoginPayload(policyholderId: int)

  /** `jwt.sign(payload, secret, { expiresIn })`; secret and expiry are not modelled. */
  datatype Token = Signed(payload: LoginPayload)

  function Sign(payload: LoginPayload): Token
  {
    Signed(payload)
  }

  /** What `jwt.verify` hands the middleware on success: the payload's
      `userId` and `role` properties, either of which may be absent. */
  datatype Decoded = Decoded(userId: Option<int>, role: Option<string>)
}
