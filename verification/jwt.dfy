/** The token check `verify_jwt`. Key fetching, signature verification and
    the expiry and audience checks happen inside the JWT library; the model
    receives the library's verdict on a token as an oracle value and keeps
    only how `verify_jwt` turns that verdict into its own result. */
module Jwt {
  import opened Wrappers

  /** The part of a decoded token's claim set that the gate reads: the
      optional `scp` claim, a list of scope names. */
  datatype Claims = Claims(scp: Option<seq<string>>)

  /** The scopes a claim set grants; a missing `scp` grants none. */
  function Scopes(c: Claims): (r: seq<string>)
    ensures c.scp.None? ==> r == []
    ensures c.scp.Some? ==> r == c.scp.value
  {
    c.scp.GetOr([])
  }

  /** What the JWT library does with a token: it returns the decoded claims
      or raises. `ExpiredSignature` and `InvalidToken` are the library's
      `InvalidTokenError` family (the expired case being a subclass of it);
      `KeyClientError` is the error of the key-set client, which the library
      derives from its base error class and not from `InvalidTokenError`. */
  datatype LibraryOutcome =
    | Decoded(claims: Claims)
    | ExpiredSignature
    | InvalidToken
    | KeyClientError

  /** The library's verdict on each token string. */
  type Verifier = string -> LibraryOutcome

  const ExpiredMessage := "Token has expired"
  const InvalidMessage := "Invalid token"

  /** The exception name with which a key-set client failure leaves `verify_jwt`. */
  const KeyClientException := "PyJWKClientError"

  /** The result of `verify_jwt`: the claims, an error pair of message and
      status, or an exception that escapes it. */
  datatype Verification =
    | Verified(claims: Claims)
    | Rejected(message: string, status: nat)
    | Raises(exception: string)

  /** `verify_jwt` as written: the expired case is caught first, the rest of
      the `InvalidTokenError` family second, and nothing else is caught. */
  function VerifyJwt(outcome: LibraryOutcome): (r: Verification)
    ensures r.Verified? <==> outcome.Decoded?
    ensures r.Verified? ==> r.claims == outcome.claims
    ensures r.Rejected? <==> outcome.ExpiredSignature? || outcome.InvalidToken?
    ensures r.Rejected? ==> r.status == 401
    ensures r.Rejected? ==> (r.message == ExpiredMessage <==> outcome.ExpiredSignature?)
    ensures outcome.ExpiredSignature? ==> r == Rejected(ExpiredMessage, 401)
    ensures outcome.InvalidToken? ==> r == Rejected(InvalidMessage, 401)
    ensures r.Raises? <==> outcome.KeyClientError?
    ensures outcome.KeyClientError? ==> r == Raises(KeyClientException)
  {
    match outcome
    case Decoded(c) => Verified(c)
    case ExpiredSignature => Rejected(ExpiredMessage, 401)
    case InvalidToken => Rejected(InvalidMessage, 401)
    case KeyClientError => Raises(KeyClientException)
  }

  /** `verify_jwt` as evidently intended: every failure of the library,
      the key-set client's included, becomes a 401 error pair. */
  function VerifyJwtStrict(outcome: LibraryOutcome): (r: Verification)
    ensures !r.Raises?
    ensures r.Verified? <==> outcome.Decoded?
    ensures r.Verified? ==> r.claims == outcome.claims
    ensures r.Rejected? ==> r.status == 401
    ensures r.Rejected? ==> (r.message == ExpiredMessage <==> outcome.ExpiredSignature?)
    ensures outcome.ExpiredSignature? ==> r == Rejected(ExpiredMessage, 401)
    ensures outcome.InvalidToken? || outcome.KeyClientError? ==> r == Rejected(InvalidMessage, 401)
  {
    match outcome
    case KeyClientError => Rejected(InvalidMessage, 401)
    case _ => VerifyJwt(outcome)
  }

  /** The two agree on every outcome except the escaping key-set error. */
  lemma StrictAgreesOnCaughtErrors(outcome: LibraryOutcome)
    ensures !outcome.KeyClientError? ==> VerifyJwtStrict(outcome) == VerifyJwt(outcome)
    ensures outcome.KeyClientError? ==> VerifyJwt(outcome).Raises? && VerifyJwtStrict(outcome).Rejected?
  {
  }
}
