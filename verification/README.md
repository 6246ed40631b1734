# Scope-gated book catalog — a Dafny model

The service keeps a list of books in memory and offers three HTTP
resources over it: list all books, fetch one book by id, and create a book.
Each resource method is wrapped by the `require_scope` decorator. The
decorator reads the `Authorization` header. It takes the header's second
whitespace-separated field as a JWT and asks `verify_jwt` to check it.
The call is let through only when the token's `scp` claim names the
required scope: `fakebookapi.read` for the two reads, `fakebookapi.admin`
for the create.

The model has six modules:

- `Wrappers` holds the `Option` type shared by the other modules.
- `TextFields` is Python's argument-less `str.split()`. It uses Python's
  whitespace set, and it proves that splitting undoes joining.
- `Jwt` is `verify_jwt`. The JWT library's verdict on a token is an oracle
  value (`LibraryOutcome`): decoded claims, an expired signature, another
  invalid-token error, or a key-set client error. The model keeps how
  `verify_jwt` maps that verdict to its own result.
- `ScopeGate` is the decorator's wrapper. It is a pure decision from
  (optional header, verifier, required scope) to reject, invoke or fault.
  The module also states the wrapper's checks as separate stages, and it
  holds a corrected gate (`DecideStrict`).
- `Catalog` is the book list: the seed, the first-match lookup and the
  append with `id = len(books) + 1`.
- `Service` puts the gate in front of the three resource methods. A call
  maps the current list to the next list and a response.

The verifier is a total function `string -> LibraryOutcome`. Both the
signature check and the expiry check happen inside the library, so this
oracle stands in for them. Key fetching and the clock are not modelled.

## Model

| member | source | states |
|---|---|---|
| TextFields.IsSpace | app.py:59 | the separators of `split()`: the characters Python's `str.isspace` accepts (ASCII tab to carriage return, the four information separators, space, and the Unicode space and line/paragraph separators) |
| TextFields.Fields | app.py:59 | every field of `split()` is non-empty and free of whitespace |
| TextFields.FieldsEmptyIffAllSpace | app.py:58-59 | a string splits into no fields if and only if it is all whitespace |
| TextFields.FieldsOfJoin | app.py:59 | splitting words joined by single spaces gives back the same words, in order |
| TextFields.FieldsSkipsLeadingSpace | app.py:59 | leading whitespace never changes the fields |
| TextFields.FieldsOfWordThen | app.py:59 | a word followed by whitespace or by nothing is the first field, and the rest of the string gives the remaining fields |
| TextFields.TwoFields | app.py:59 | a header `scheme SP token` splits into exactly `[scheme, token]` |
| Jwt.Scopes | app.py:63 | the scopes a claim set grants are its `scp` list, and a missing `scp` grants none, as `claims.get('scp', [])` |
| Jwt.VerifyJwt | app.py:42-50 | claims pass through unchanged; an expired signature gives 401 "Token has expired"; any other invalid-token error gives 401 "Invalid token"; a key-set client error is not caught and escapes |
| Jwt.VerifyJwtStrict | app.py:42-50 | corrected `verify_jwt`: never lets an exception escape; the other outcomes are mapped as before |
| Jwt.StrictAgreesOnCaughtErrors | app.py:47-50 | the corrected and the written `verify_jwt` differ only on the key-set client error |
| ScopeGate.HasHeader | app.py:57-58 | the presence test is Python truthiness: an absent header and an empty one both fail it |
| ScopeGate.SecondField | app.py:59 | the extracted token exists if and only if the split has at least two fields; it is the second field, and it is a whitespace-free word |
| ScopeGate.Admit | app.py:60-65 | after `verify_jwt`: an error pair is returned as is; an escaping exception stays one; the operation is invoked if and only if the claims grant the scope |
| ScopeGate.Decide | app.py:56-67 | no header or an empty header gives 401 "Missing Authorization Header"; a rejection has status 401 or 403; the operation is invoked if and only if all four hold: the header is present, it has at least two fields, the library decodes the second field, and the required scope is in its `scp` |
| ScopeGate.VerifyFailure | app.py:47-62 | the verification stage passes exactly the decoded tokens; each refusal is answered with the error pair `verify_jwt` returns, or the exception that escapes it |
| ScopeGate.ScopeFailure | app.py:63-64 | the scope stage passes exactly the decoded tokens whose claims grant the scope, and answers every other token with 403 "<scope> scope is required" |
| ScopeGate.StageFailure | app.py:57-64 | each stage judges its own input, whatever the earlier stages found: the header stage fails exactly when the header is absent or empty, the split stage exactly when there are fewer than two fields, and the later stages raise `IndexError` when there is no token to read |
| ScopeGate.FirstFailure | app.py:57-67 | reports no failure if and only if every stage passes; a reported failure is the answer of a stage that fails while every stage before it passes |
| ScopeGate.AdmitIsFirstFailure | app.py:60-65 | once the token is extracted, `verify_jwt` and the scope test behave as the verification stage followed by the scope stage |
| ScopeGate.DecideIsFirstFailure | app.py:57-67 | the wrapper's decision is the answer of the first failing stage in the order header, split, verification, scope, and the operation is invoked exactly when no stage fails |
| ScopeGate.HeaderBeforeSplit | app.py:57-59 | in the stage model, the header check must come before the split: with the two swapped, an absent or empty header faults instead of getting 401 (for the empty header `"".split()[1]` would indeed raise `IndexError`; for an absent one Python would raise `AttributeError`, which the stage model does not distinguish) |
| ScopeGate.VerifyBeforeScope | app.py:60-64 | in the stage model, verification must come before the scope check: with the two swapped, an expired token gets the scope stage's 403 instead of 401 "Token has expired" (reordered Python would instead fail calling `.get` on the error tuple) |
| ScopeGate.NoHeaderIgnoresVerifier | app.py:57-58 | without a header the verifier is never consulted: any two verifiers give the same 401 |
| ScopeGate.VerifierSeesOnlySecondField | app.py:59-60 | the decision depends on the verifier only through its verdict on the header's second field |
| ScopeGate.RefusedTokenIgnoresScope | app.py:60-62 | a token the library refuses is answered with its 401 before the scope is looked at, whatever the scope |
| ScopeGate.MissingScopeForbidden | app.py:63-64 | a decoded token whose `scp` lacks the scope gets 403 "<scope> scope is required"; a missing `scp` counts as an empty list |
| ScopeGate.MissingScpForbidden | app.py:63-64 | a decoded token without any `scp` claim gets 403 for every required scope |
| ScopeGate.SchemeWordIgnored | app.py:59 | the first field of the header is never checked: any scheme word in front of the same token gives the same decision |
| ScopeGate.BasicSchemeInvokes | app.py:59 | a `Basic <token>` header opens the gate when the library accepts the token with the required scope |
| ScopeGate.SingleFieldFaults | app.py:59 | a header with a single field raises `IndexError` |
| ScopeGate.BlankHeaderFaults | app.py:58-59 | a non-empty header of only whitespace passes the presence test and then raises `IndexError` |
| ScopeGate.KeyClientErrorFaults | app.py:44-50 | when the key-set client fails on the token, the exception escapes the wrapper |
| ScopeGate.BearerToken | app.py:59 | corrected token extraction: yields a token if and only if the header has exactly two fields and the first one is `Bearer`, in any case; the token is the second field |
| ScopeGate.BearerTokenOfBearerHeader | app.py:59 | `Bearer <token>`, with the scheme in any case, gives back the token |
| ScopeGate.DecideStrict | app.py:56-67 | corrected gate: never faults; it keeps the missing-header answer; it invokes if and only if there is a well-formed Bearer header whose token decodes with the scope |
| ScopeGate.StrictRequiresBearer | app.py:59 | the corrected gate answers 401 to any scheme other than `Bearer`, whatever the token |
| ScopeGate.StrictRefinesDecide | app.py:56-67 | the corrected gate invokes only where the written one does; on a well-formed Bearer request whose key resolves, the two decide alike |
| Catalog.Seed | app.py:33-39 | the service starts with five books |
| Catalog.SeedNumbered | app.py:33-39 | the seeded ids are 1 to 5, in list order |
| Catalog.IndexOf | app.py:94 | returns the position of the first book with the id, with no earlier book having it, or nothing when no book has it |
| Catalog.Lookup | app.py:94-97 | the book found has the id and is the first book in the list that has it; nothing is found if and only if no book has the id |
| Catalog.LookupNumbered | app.py:94-97 | in a list numbered by position, id `n` finds the `n`-th book, and ids outside 1..length find nothing |
| Catalog.Append | app.py:80-87 | adds exactly one book at the end, numbered length + 1, and keeps every earlier book |
| Catalog.AppendKeepsNumbered | app.py:80-87 | appending keeps every id equal to its 1-based position |
| Catalog.AppendThenLookup | app.py:80-97 | after a create, the new id finds the new book, and every other id finds what it found before |
| Service.RequiredScope | app.py:73-92 | creating a book requires `fakebookapi.admin`, and exactly the two reads require `fakebookapi.read` |
| Service.Perform | app.py:74-97 | listing returns the whole list in order; fetching returns the first book with the id or 404 "Book not found"; both leave the list alone; creating appends one book numbered length + 1, keeps the earlier books and answers 201 with the new book |
| Service.Respond | app.py:61-67 | only an invoke decision runs the resource method, and its result is returned unchanged; a rejection becomes the wrapper's returned message with its status; a fault leaves the list alone |
| Service.Serve | app.py:53-97 | a call runs its resource method exactly when the gate opens for the required scope; otherwise the list is untouched and the answer is an error message or an exception |
| Service.ServeStrict | app.py:53-97 | the same as `Serve`, with the corrected gate, whose refusals are always message responses |
| Service.ServeChangesOnlyByCreate | app.py:77-88 | the list changes only through a create the admin gate let through, and then by one appended book |
| Service.RejectedCreateLeavesCatalog | app.py:77-88 | a create the gate refuses leaves the list and its length unchanged and answers with a message |
| Service.CreateWithoutAdminForbidden | app.py:63-88 | for a create whose token lacks `fakebookapi.admin` the wrapper returns 403 "fakebookapi.admin scope is required", and the list stays the same |
| Service.NoHeaderUnauthorized | app.py:66-67 | with no header, the wrapper of every resource returns 401 "Missing Authorization Header" and nothing runs |
| Service.ServeKeepsNumbered | app.py:80-87 | every call, let through or not, keeps the ids equal to their positions, with either gate |
| Service.ReplayKeepsNumbered | app.py:33-88 | any sequence of calls starting from a numbered list leaves it numbered, whatever the library says of each call's token at the time of that call |
| Service.SeedListing | app.py:73-75 | with a read-scoped token, listing the seed returns exactly the five seeded books, with ids 1 to 5, in order, and changes nothing |
| Service.MissingBookNotFound | app.py:92-97 | with a read-scoped token, fetching an id outside 1..length from a numbered list gives 404 "Book not found" and changes nothing |
| Service.SeedMissingBook | app.py:92-97 | with a read-scoped token, fetching book 999 from the seed gives 404 "Book not found" |
| Service.ServeStrictNeverRaises | app.py:53-67 | with the corrected gate, no call ends in an escaping exception, and a refused call leaves the list alone |

## Left out

- Fetching and caching the key set (`PyJWKClient` and its hardcoded URL, app.py:12-13 and 44) is not modelled. It is network I/O inside the library. Its possible failure is kept as the `KeyClientError` outcome.
- Signature, algorithm, expiry and audience checking (`jwt_decode`, app.py:45) is not modelled. It is cryptography inside the library and is modelled only as the oracle verdict.
- The Flask and Flask-RESTful plumbing is not modelled: routing, `jsonify`, `request.get_json`, `before_request` and `app.run` (app.py:1-9 and 99-109). The request body is assumed to parse and to carry all four fields. A missing field (`KeyError` at app.py:82-85) is not modelled.
- Service.Respond: assumes the framework sends the wrapper's `(message, status)` pair as it is. At app.py:64 and 67 the wrapper returns a `jsonify(...)` response object inside a tuple from a Flask-RESTful resource method. Flask-RESTful would most likely try to JSON-encode that object and fail with a 500. How Flask-RESTful encodes a method's return value is not part of this model. The dictionary pairs at app.py:48, 50, 88 and 97 are not affected.
- Which HTTP status the framework gives an escaping exception is not modelled. The model stops at `Fault` / `Raised`.
- The `cost` field is a Python float. In the model it is a `real` that the catalog only stores. Float rounding and the `to_dict` serialisation (app.py:21-31) are not modelled.
- The unused `flask_jwt_extended` imports and configuration (app.py:3 and 8) are not modelled.
- `scp` is modelled as an optional list of strings. Two other cases are not modelled: an `scp` string, where Python's `in` would test for a substring, and an `scp` of `null`, where `in` would raise.
- The route converter accepts only non-negative ids, so `GetBook` takes a `nat`.
- Several requests can share the module-level list at once. This concurrency is not modelled; each call is one atomic step.
- ScopeGate.BearerToken: the corrected gate does not check that the token uses only the characters RFC 6750 allows (its `b64token` syntax). It only requires the scheme word and exactly two fields.

The model follows the code as written. Section 2.1 of RFC 6750 defines
the header as `Bearer <token>`, and the code's own `except` clauses
(app.py:47-50) answer token failures with 401. The code does not check the
scheme word, and it lets two kinds of failure escape instead of answering
401. These gaps are recorded below, each with a corrected member.

## Findings

| source | as written | input that shows it | evidently intended | confidence | as-written member | corrected member |
|---|---|---|---|---|---|---|
| app.py:59 | the token is `split()[1]`; the scheme word is never compared with `Bearer` | `Authorization: Basic <valid token>` is let through | only `Bearer <token>` is accepted (section 2.1 of RFC 6750), and anything else gets 401 | high, not executed | ScopeGate.BasicSchemeInvokes | ScopeGate.StrictRequiresBearer |
| app.py:59 | `split()[1]` is not guarded | `Authorization: abc` (one field) or `Authorization: " "` raises `IndexError` | a malformed header gets 401 | high, not executed | ScopeGate.SingleFieldFaults | ScopeGate.DecideStrict |
| app.py:47-50 | only `ExpiredSignatureError` and `InvalidTokenError` are caught; the key-set client's error derives from the library's base error, not from `InvalidTokenError` | a well-formed token whose `kid` is not in the published key set | an unresolvable key gets 401 "Invalid token" | medium (it rests on the library's exception hierarchy, which is not part of this model), not executed | ScopeGate.KeyClientErrorFaults | Jwt.VerifyJwtStrict |
