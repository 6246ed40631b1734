/** The `require_scope` decorator: the decision its wrapper takes before it
    lets a protected operation run. The decision is a pure function of the
    optional `Authorization` header, the JWT library's verdict on each token
    and the scope the operation requires. */
module ScopeGate {
  import opened Wrappers
  import opened TextFields
  import opened Jwt

  /** What the wrapper does: answer with an error response, call the wrapped
      operation, or let an exception escape to the web framework. */
  datatype Decision =
    | Reject(status: nat, message: string)
    | Invoke
    | Fault(exception: string)

  const MissingHeaderMessage := "Missing Authorization Header"

  /** Indexing past the end of the header's field list. */
  const IndexException := "IndexError"

  function ScopeMessage(scope: string): (m: string)
    ensures |m| > |scope| && m[..|scope|] == scope
  {
    scope + " scope is required"
  }

  /** Python truthiness of the header lookup: absent and empty both fail. */
  predicate HasHeader(header: Option<string>) {
    header.Some? && header.value != []
  }

  /** The token the wrapper extracts: the header's second field, when the
      split has one. */
  function SecondField(header: string): (r: Option<string>)
    ensures r.Some? <==> |Fields(header)| >= 2
    ensures r.Some? ==> r.value == Fields(header)[1] && IsWord(r.value)
  {
    var fields := Fields(header);
    if |fields| < 2 then None
    else
      assert fields[1] in fields;
      Some(fields[1])
  }

  /** The wrapper's answer once `verify_jwt` has returned: its error pair
      as is, its escaping exception, or the scope check on the claims. */
  function Admit(v: Verification, scope: string): (d: Decision)
    ensures d.Invoke? <==> v.Verified? && scope in Scopes(v.claims)
    ensures v.Rejected? ==> d == Reject(v.status, v.message)
    ensures v.Raises? ==> d == Fault(v.exception)
  {
    match v
    case Rejected(message, status) => Reject(status, message)
    case Raises(e) => Fault(e)
    case Verified(claims) =>
      if scope !in Scopes(claims) then Reject(403, ScopeMessage(scope))
      else Invoke
  }

  /** The wrapper as written. The token is the second whitespace-separated
      field of the header, whatever the first field says. */
  function Decide(header: Option<string>, verify: Verifier, scope: string): (d: Decision)
    ensures !HasHeader(header) ==> d == Reject(401, MissingHeaderMessage)
    ensures d.Reject? ==> d.status == 401 || d.status == 403
    ensures d.Invoke? <==>
      && HasHeader(header)
      && |Fields(header.value)| >= 2
      && verify(Fields(header.value)[1]).Decoded?
      && scope in Scopes(verify(Fields(header.value)[1]).claims)
  {
    if !HasHeader(header) then Reject(401, MissingHeaderMessage)
    else
      match SecondField(header.value)
      case None => Fault(IndexException)
      case Some(token) => Admit(VerifyJwt(verify(token)), scope)
  }

  // ---------------------------------------------------------------------
  // The wrapper's checks as separate stages, and the rule that the first
  // failing stage decides. Each stage judges its own input, whatever the
  // stages before it found, so the order of the stages matters.

  datatype Stage = HeaderStage | SplitStage | VerifyStage | ScopeStage

  /** The order in which the wrapper runs its checks. */
  const Pipeline: seq<Stage> := [HeaderStage, SplitStage, VerifyStage, ScopeStage]

  /** The token, the header's second field, a missing header read as an
      empty string. */
  function TokenOf(header: Option<string>): (r: Option<string>)
    ensures r.Some? <==> |Fields(header.GetOr([]))| >= 2
    ensures r.Some? ==> r.value == Fields(header.GetOr([]))[1]
  {
    SecondField(header.GetOr([]))
  }

  /** The verification stage on its own: how each refusal of the library
      is answered. */
  function VerifyFailure(outcome: LibraryOutcome): (r: Option<Decision>)
    ensures r.None? <==> outcome.Decoded?
    ensures VerifyJwt(outcome).Rejected? ==> r == Some(Reject(401, VerifyJwt(outcome).message))
    ensures VerifyJwt(outcome).Raises? ==> r == Some(Fault(VerifyJwt(outcome).exception))
  {
    match outcome
    case Decoded(_) => None
    case ExpiredSignature => Some(Reject(401, ExpiredMessage))
    case InvalidToken => Some(Reject(401, InvalidMessage))
    case KeyClientError => Some(Fault(KeyClientException))
  }

  /** The scope stage on its own: it passes only claims that grant the
      scope, and a token it cannot read the claims of grants nothing. */
  function ScopeFailure(outcome: LibraryOutcome, scope: string): (r: Option<Decision>)
    ensures r.None? <==> outcome.Decoded? && scope in Scopes(outcome.claims)
    ensures r.Some? ==> r.value == Reject(403, ScopeMessage(scope))
  {
    match outcome
    case Decoded(c) => if scope in Scopes(c) then None else Some(Reject(403, ScopeMessage(scope)))
    case _ => Some(Reject(403, ScopeMessage(scope)))
  }

  /** The response a single stage gives when it fails, or None when it
      passes. Without a token to read, the verification and scope stages
      fail as reading the token does. */
  function StageFailure(stage: Stage, header: Option<string>, verify: Verifier, scope: string): (r: Option<Decision>)
    ensures stage.HeaderStage? ==> (r.None? <==> HasHeader(header))
    ensures stage.SplitStage? ==> (r.None? <==> |Fields(header.GetOr([]))| >= 2)
    ensures !stage.HeaderStage? && TokenOf(header).None? ==> r == Some(Fault(IndexException))
  {
    match stage
    case HeaderStage =>
      if HasHeader(header) then None else Some(Reject(401, MissingHeaderMessage))
    case SplitStage =>
      if |Fields(header.GetOr([]))| < 2 then Some(Fault(IndexException)) else None
    case VerifyStage =>
      (match TokenOf(header)
       case None => Some(Fault(IndexException))
       case Some(token) => VerifyFailure(verify(token)))
    case ScopeStage =>
      (match TokenOf(header)
       case None => Some(Fault(IndexException))
       case Some(token) => ScopeFailure(verify(token), scope))
  }

  /** Either the first failure or, when it passes, the second. */
  function OrElse(first: Option<Decision>, second: Option<Decision>): (r: Option<Decision>)
    ensures r.None? <==> first.None? && second.None?
    ensures first.Some? ==> r == first
  {
    if first.Some? then first else second
  }

  /** Stage `i` of `stages` fails and every stage before it passes. */
  predicate FailsFirstAt(stages: seq<Stage>, i: int, header: Option<string>, verify: Verifier, scope: string) {
    && 0 <= i < |stages|
    && StageFailure(stages[i], header, verify, scope).Some?
    && forall j :: 0 <= j < i ==> StageFailure(stages[j], header, verify, scope).None?
  }

  /** The response of the first stage of `stages` that fails. */
  function FirstFailure(stages: seq<Stage>, header: Option<string>, verify: Verifier, scope: string): (r: Option<Decision>)
    ensures r.None? <==> forall i :: 0 <= i < |stages| ==> StageFailure(stages[i], header, verify, scope).None?
    ensures r.Some? ==>
      exists i :: FailsFirstAt(stages, i, header, verify, scope) && r == StageFailure(stages[i], header, verify, scope)
  {
    if |stages| == 0 then None
    else
      var first := StageFailure(stages[0], header, verify, scope);
      var rest := FirstFailure(stages[1..], header, verify, scope);
      assert forall i :: 1 <= i < |stages| ==> stages[i] == stages[1..][i - 1];
      assert first.Some? ==> FailsFirstAt(stages, 0, header, verify, scope);
      assert first.None? && rest.Some? ==>
        exists i :: FailsFirstAt(stages, i, header, verify, scope) && rest == StageFailure(stages[i], header, verify, scope)
      by {
        if first.None? && rest.Some? {
          var k :| FailsFirstAt(stages[1..], k, header, verify, scope) && rest == StageFailure(stages[1..][k], header, verify, scope);
          assert stages[k + 1] == stages[1..][k];
          forall j | 0 <= j < k + 1
            ensures StageFailure(stages[j], header, verify, scope).None?
          {
            if j > 0 {
              assert stages[j] == stages[1..][j - 1];
            }
          }
          assert FailsFirstAt(stages, k + 1, header, verify, scope);
        }
      }
      OrElse(first, rest)
  }

  /** After the token is extracted, `verify_jwt` and the scope check are
      the verification stage followed by the scope stage. */
  lemma AdmitIsFirstFailure(outcome: LibraryOutcome, scope: string)
    ensures Admit(VerifyJwt(outcome), scope) ==
      OrElse(VerifyFailure(outcome), ScopeFailure(outcome, scope)).GetOr(Invoke)
  {
  }

  /** The wrapper runs its checks in the fixed order header, split, verify,
      scope: the first one that fails decides the response, and the
      operation is invoked exactly when none fails. */
  lemma DecideIsFirstFailure(header: Option<string>, verify: Verifier, scope: string)
    ensures Decide(header, verify, scope) == FirstFailure(Pipeline, header, verify, scope).GetOr(Invoke)
  {
    FirstFailureOfFour(HeaderStage, SplitStage, VerifyStage, ScopeStage, header, verify, scope);
    var d := Decide(header, verify, scope);
    var sh := StageFailure(HeaderStage, header, verify, scope);
    var sp := StageFailure(SplitStage, header, verify, scope);
    var sv := StageFailure(VerifyStage, header, verify, scope);
    var sc := StageFailure(ScopeStage, header, verify, scope);
    if !HasHeader(header) {
      assert sh == Some(d);
    } else if TokenOf(header).None? {
      assert sh == None && sp == Some(d);
    } else {
      var token := TokenOf(header).value;
      assert sh == None && sp == None;
      assert sv == VerifyFailure(verify(token));
      assert sc == ScopeFailure(verify(token), scope);
      assert d == Admit(VerifyJwt(verify(token)), scope);
      AdmitIsFirstFailure(verify(token), scope);
    }
  }

  /** The first failure among four stages, spelled out. */
  lemma FirstFailureOfFour(a: Stage, b: Stage, c: Stage, e: Stage, header: Option<string>, verify: Verifier, scope: string)
    ensures FirstFailure([a, b, c, e], header, verify, scope) ==
      OrElse(StageFailure(a, header, verify, scope),
      OrElse(StageFailure(b, header, verify, scope),
      OrElse(StageFailure(c, header, verify, scope),
             StageFailure(e, header, verify, scope))))
  {
    var p0: seq<Stage> := [a, b, c, e];
    var p1, p2, p3 := p0[1..], p0[2..], p0[3..];
    assert p1 == [b, c, e] && p1[1..] == p2;
    assert p2 == [c, e] && p2[1..] == p3;
    assert p3 == [e] && p3[1..] == [];
    FirstFailureCons(p3, header, verify, scope);
    FirstFailureCons(p2, header, verify, scope);
    FirstFailureCons(p1, header, verify, scope);
    FirstFailureCons(p0, header, verify, scope);
  }

  lemma FirstFailureCons(stages: seq<Stage>, header: Option<string>, verify: Verifier, scope: string)
    requires |stages| > 0
    ensures FirstFailure(stages, header, verify, scope) ==
      OrElse(StageFailure(stages[0], header, verify, scope), FirstFailure(stages[1..], header, verify, scope))
  {
  }

  /** The header check must come before the split: with the two swapped,
      a request without a header would raise instead of getting 401. */
  lemma HeaderBeforeSplit(verify: Verifier, scope: string)
    ensures Decide(None, verify, scope) == Reject(401, MissingHeaderMessage)
    ensures Decide(Some(""), verify, scope) == Reject(401, MissingHeaderMessage)
    ensures FirstFailure([SplitStage, HeaderStage, VerifyStage, ScopeStage], None, verify, scope) ==
      Some(Fault(IndexException))
    ensures FirstFailure([SplitStage, HeaderStage, VerifyStage, ScopeStage], Some(""), verify, scope) ==
      Some(Fault(IndexException))
  {
    FirstFailureOfFour(SplitStage, HeaderStage, VerifyStage, ScopeStage, None, verify, scope);
    FirstFailureOfFour(SplitStage, HeaderStage, VerifyStage, ScopeStage, Some(""), verify, scope);
    assert Fields([]) == [];
  }

  /** Verification must come before the scope check: with the two
      swapped, an expired token would get the scope's 403 instead of the
      expiry's 401. */
  lemma VerifyBeforeScope(scheme: string, token: string, verify: Verifier, scope: string)
    requires IsWord(scheme) && IsWord(token)
    requires verify(token).ExpiredSignature?
    ensures Decide(Some(scheme + " " + token), verify, scope) == Reject(401, ExpiredMessage)
    ensures FirstFailure([HeaderStage, SplitStage, ScopeStage, VerifyStage], Some(scheme + " " + token), verify, scope) ==
      Some(Reject(403, ScopeMessage(scope)))
  {
    var header := Some(scheme + " " + token);
    TwoFields(scheme, token);
    assert |header.value| > 0;
    FirstFailureOfFour(HeaderStage, SplitStage, ScopeStage, VerifyStage, header, verify, scope);
  }

  /** Without a header the verifier is never consulted: the decision is the
      same whatever the verifier would have said. */
  lemma NoHeaderIgnoresVerifier(header: Option<string>, v1: Verifier, v2: Verifier, scope: string)
    requires !HasHeader(header)
    ensures Decide(header, v1, scope) == Decide(header, v2, scope) == Reject(401, MissingHeaderMessage)
  {
  }

  /** The verifier is consulted about exactly one string, the header's
      second field: two verifiers that agree on it lead to the same
      decision. */
  lemma VerifierSeesOnlySecondField(header: string, v1: Verifier, v2: Verifier, scope: string)
    requires |Fields(header)| >= 2
    requires v1(Fields(header)[1]) == v2(Fields(header)[1])
    ensures Decide(Some(header), v1, scope) == Decide(Some(header), v2, scope)
  {
  }

  /** A token the library refuses is answered before the scope is looked
      at: the required scope makes no difference. */
  lemma RefusedTokenIgnoresScope(header: string, verify: Verifier, s1: string, s2: string)
    requires |Fields(header)| >= 2
    requires !verify(Fields(header)[1]).Decoded?
    ensures Decide(Some(header), verify, s1) == Decide(Some(header), verify, s2)
    ensures verify(Fields(header)[1]).ExpiredSignature? ==>
      Decide(Some(header), verify, s1) == Reject(401, ExpiredMessage)
    ensures verify(Fields(header)[1]).InvalidToken? ==>
      Decide(Some(header), verify, s1) == Reject(401, InvalidMessage)
  {
  }

  /** A decoded token that lacks the scope is refused with 403 and the
      scope's name; a missing `scp` claim lacks every scope. */
  lemma MissingScopeForbidden(header: string, verify: Verifier, scope: string)
    requires |Fields(header)| >= 2
    requires verify(Fields(header)[1]).Decoded?
    requires scope !in Scopes(verify(Fields(header)[1]).claims)
    ensures Decide(Some(header), verify, scope) == Reject(403, scope + " scope is required")
  {
  }

  /** A decoded token with no `scp` claim at all is refused with 403,
      whatever scope the operation requires. */
  lemma MissingScpForbidden(header: string, verify: Verifier, scope: string)
    requires |Fields(header)| >= 2
    requires verify(Fields(header)[1]) == Decoded(Claims(None))
    ensures Decide(Some(header), verify, scope) == Reject(403, ScopeMessage(scope))
  {
  }

  // ---------------------------------------------------------------------
  // How the wrapper as written treats malformed headers.

  /** The first field of the header is never looked at: any scheme word in
      front of a token gives the same decision, so `Basic t` passes where
      `Bearer t` does. */
  lemma SchemeWordIgnored(scheme1: string, scheme2: string, token: string, verify: Verifier, scope: string)
    requires IsWord(scheme1) && IsWord(scheme2) && IsWord(token)
    ensures Decide(Some(scheme1 + " " + token), verify, scope) ==
            Decide(Some(scheme2 + " " + token), verify, scope)
  {
    TwoFields(scheme1, token);
    TwoFields(scheme2, token);
  }

  /** A `Basic` header whose token the library accepts with the required
      scope opens the gate. */
  lemma BasicSchemeInvokes(token: string, verify: Verifier, scope: string)
    requires IsWord(token)
    requires verify(token).Decoded? && scope in Scopes(verify(token).claims)
    ensures Decide(Some("Basic " + token), verify, scope) == Invoke
  {
    var basic := "Basic";
    assert IsWord(basic) by {
      forall i | 0 <= i < |basic| ensures !IsSpace(basic[i]) { }
    }
    TwoFields(basic, token);
    assert basic + " " + token == "Basic " + token;
  }

  /** A header of a single field (a bare token, or a scheme without one)
      makes the wrapper index past the end of the split. */
  lemma SingleFieldFaults(word: string, verify: Verifier, scope: string)
    requires IsWord(word)
    ensures Decide(Some(word), verify, scope) == Fault(IndexException)
  {
    OneField(word);
  }

  /** A header of whitespace only is present but splits into nothing. */
  lemma BlankHeaderFaults(header: string, verify: Verifier, scope: string)
    requires header != [] && AllSpace(header)
    ensures Decide(Some(header), verify, scope) == Fault(IndexException)
  {
    FieldsEmptyIffAllSpace(header);
  }

  /** A key the key-set client cannot resolve escapes as an exception. */
  lemma KeyClientErrorFaults(header: string, verify: Verifier, scope: string)
    requires |Fields(header)| >= 2
    requires verify(Fields(header)[1]).KeyClientError?
    ensures Decide(Some(header), verify, scope) == Fault(KeyClientException)
  {
  }

  // ---------------------------------------------------------------------
  // The wrapper as evidently intended: the header must be `Bearer <token>`
  // (section 2.1 of RFC 6750, the scheme name matched without regard to
  // case as section 2.1 of RFC 7235 requires), and every header or token
  // failure is a 401.

  function AsciiLower(c: char): (r: char)
    ensures 'A' <= c <= 'Z' ==> r as int == c as int + 32
    ensures !('A' <= c <= 'Z') ==> r == c
  {
    if 'A' <= c <= 'Z' then (c as int + 32) as char else c
  }

  /** Equality of two strings up to ASCII letter case. */
  predicate SameIgnoringCase(a: string, b: string) {
    |a| == |b| && forall i :: 0 <= i < |a| ==> AsciiLower(a[i]) == AsciiLower(b[i])
  }

  /** The token of a `Bearer` header: exactly two fields, the first of
      them the scheme name. */
  function BearerToken(header: string): (r: Option<string>)
    ensures r.Some? ==> IsWord(r.value)
    ensures r.Some? <==> |Fields(header)| == 2 && SameIgnoringCase(Fields(header)[0], "Bearer")
    ensures r.Some? ==> r.value == Fields(header)[1]
  {
    var fields := Fields(header);
    if |fields| == 2 && SameIgnoringCase(fields[0], "Bearer") then
      assert fields[1] in fields;
      Some(fields[1])
    else None
  }

  /** A scheme word equal to `Bearer` up to case consists of letters, so
      it is a word of the split. */
  lemma BearerSchemeIsWord(scheme: string)
    requires SameIgnoringCase(scheme, "Bearer")
    ensures IsWord(scheme)
  {
    var bearer := "Bearer";
    forall i | 0 <= i < |scheme|
      ensures !IsSpace(scheme[i])
    {
      assert AsciiLower(scheme[i]) == AsciiLower(bearer[i]);
      assert 'a' <= AsciiLower(bearer[i]) <= 'z' by {
        assert bearer[0] == 'B' && bearer[1] == 'e' && bearer[2] == 'a';
        assert bearer[3] == 'r' && bearer[4] == 'e' && bearer[5] == 'r';
      }
    }
  }

  /** `Bearer <token>` gives back the token, whatever the case of the
      scheme word. */
  lemma BearerTokenOfBearerHeader(scheme: string, token: string)
    requires SameIgnoringCase(scheme, "Bearer") && IsWord(token)
    ensures BearerToken(scheme + " " + token) == Some(token)
  {
    BearerSchemeIsWord(scheme);
    TwoFields(scheme, token);
  }

  function DecideStrict(header: Option<string>, verify: Verifier, scope: string): (d: Decision)
    ensures !d.Fault?
    ensures !HasHeader(header) ==> d == Reject(401, MissingHeaderMessage)
    ensures d.Reject? ==> d.status == 401 || d.status == 403
    ensures d.Invoke? <==>
      && HasHeader(header)
      && BearerToken(header.value).Some?
      && verify(BearerToken(header.value).value).Decoded?
      && scope in Scopes(verify(BearerToken(header.value).value).claims)
  {
    if !HasHeader(header) then Reject(401, MissingHeaderMessage)
    else
      match BearerToken(header.value)
      case None => Reject(401, InvalidMessage)
      case Some(token) => Admit(VerifyJwtStrict(verify(token)), scope)
  }

  /** The corrected gate refuses every header whose first field is not the
      `Bearer` scheme, whatever the verifier would say of the token. */
  lemma StrictRequiresBearer(scheme: string, token: string, verify: Verifier, scope: string)
    requires IsWord(scheme) && IsWord(token)
    requires !SameIgnoringCase(scheme, "Bearer")
    ensures DecideStrict(Some(scheme + " " + token), verify, scope) == Reject(401, InvalidMessage)
  {
    TwoFields(scheme, token);
  }

  /** The corrected gate only lets through what the gate as written lets
      through, and on a well-formed `Bearer` request whose token the key
      client can resolve, the two decide alike. */
  lemma StrictRefinesDecide(header: Option<string>, verify: Verifier, scope: string)
    ensures DecideStrict(header, verify, scope).Invoke? ==> Decide(header, verify, scope).Invoke?
    ensures HasHeader(header) && BearerToken(header.value).Some? &&
            !verify(BearerToken(header.value).value).KeyClientError? ==>
              DecideStrict(header, verify, scope) == Decide(header, verify, scope)
  {
  }
}
