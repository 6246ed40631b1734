/** The three protected resources of the service, each behind the scope
    gate: list all books and fetch one (scope `fakebookapi.read`), create a
    book (scope `fakebookapi.admin`). A call takes the current book list and
    returns the next one together with the response. */
module Service {
  import opened Wrappers
  import opened TextFields
  import opened Jwt
  import opened ScopeGate
  import opened Catalog

  datatype Request<D> =
    | ListBooks
    | GetBook(bookId: nat)
    | CreateBook(details: D)

  datatype Body<D> =
    | BookList(books: seq<Book<D>>)
    | OneBook(book: Book<D>)
    | Message(text: string)

  /** A response with a status and a body, or an exception that reached the
      web framework. */
  datatype Response<D> =
    | Response(status: nat, body: Body<D>)
    | Raised(exception: string)

  const ReadScope := "fakebookapi.read"
  const AdminScope := "fakebookapi.admin"
  const NotFoundMessage := "Book not found"

  /** The scope named in each resource method's decorator. */
  function RequiredScope<D>(request: Request<D>): (scope: string)
    ensures scope == AdminScope <==> request.CreateBook?
    ensures scope == ReadScope <==> !request.CreateBook?
  {
    match request
    case CreateBook(_) => AdminScope
    case _ => ReadScope
  }

  /** The body of a protected resource method, run once the gate opens. */
  function Perform<D>(books: seq<Book<D>>, request: Request<D>): (r: (seq<Book<D>>, Response<D>))
    ensures !request.CreateBook? ==> r.0 == books
    ensures request.ListBooks? ==> r.1 == Response(200, BookList(books))
    ensures request.GetBook? ==>
      match Lookup(books, request.bookId)
      case Some(b) => r.1 == Response(200, OneBook(b))
      case None => r.1 == Response(404, Message(NotFoundMessage))
    ensures request.CreateBook? ==>
      && |r.0| == |books| + 1
      && r.0[..|books|] == books
      && r.0[|books|] == Book(|books| + 1, request.details)
      && r.1 == Response(201, OneBook(r.0[|books|]))
  {
    match request
    case ListBooks => (books, Response(200, BookList(books)))
    case GetBook(id) =>
      (books, match Lookup(books, id)
              case Some(b) => Response(200, OneBook(b))
              case None => Response(404, Message(NotFoundMessage)))
    case CreateBook(details) =>
      var next := Append(books, details);
      (next, Response(201, OneBook(next[|books|])))
  }

  /** The wrapper's decision turned into the call's outcome: only `Invoke`
      runs the resource method, and its result is passed on unchanged. */
  function Respond<D>(books: seq<Book<D>>, request: Request<D>, decision: Decision): (r: (seq<Book<D>>, Response<D>))
    ensures decision.Invoke? ==> r == Perform(books, request)
    ensures decision.Reject? ==> r == (books, Response(decision.status, Message(decision.message)))
    ensures decision.Fault? ==> r == (books, Raised(decision.exception))
  {
    match decision
    case Invoke => Perform(books, request)
    case Reject(status, message) => (books, Response(status, Message(message)))
    case Fault(e) => (books, Raised(e))
  }

  /** One call as the service is written: the resource method runs, once,
      exactly when the gate opens; otherwise the list is untouched. */
  function Serve<D>(books: seq<Book<D>>, request: Request<D>, header: Option<string>, verify: Verifier): (r: (seq<Book<D>>, Response<D>))
    ensures Decide(header, verify, RequiredScope(request)).Invoke? ==> r == Perform(books, request)
    ensures !Decide(header, verify, RequiredScope(request)).Invoke? ==> r.0 == books && (r.1.Response? ==> r.1.body.Message?)
  {
    Respond(books, request, Decide(header, verify, RequiredScope(request)))
  }

  /** One call with the corrected gate. */
  function ServeStrict<D>(books: seq<Book<D>>, request: Request<D>, header: Option<string>, verify: Verifier): (r: (seq<Book<D>>, Response<D>))
    ensures DecideStrict(header, verify, RequiredScope(request)).Invoke? ==> r == Perform(books, request)
    ensures !DecideStrict(header, verify, RequiredScope(request)).Invoke? ==> r.0 == books && r.1.Response? && r.1.body.Message?
  {
    Respond(books, request, DecideStrict(header, verify, RequiredScope(request)))
  }

  /** The book list changes only through a create that the gate let
      through, and then by exactly one book at the end. */
  lemma ServeChangesOnlyByCreate<D>(books: seq<Book<D>>, request: Request<D>, header: Option<string>, verify: Verifier)
    ensures var (next, _) := Serve(books, request, header, verify);
      next == books || (request.CreateBook? && Decide(header, verify, AdminScope).Invoke?
                        && next == Append(books, request.details))
    ensures !Decide(header, verify, RequiredScope(request)).Invoke? ==>
      Serve(books, request, header, verify).0 == books
  {
  }

  /** A create the gate refuses leaves the list exactly as it was, and the
      response is the gate's. */
  lemma RejectedCreateLeavesCatalog<D>(books: seq<Book<D>>, details: D, header: Option<string>, verify: Verifier)
    requires !Decide(header, verify, AdminScope).Invoke?
    ensures Serve(books, CreateBook(details), header, verify).0 == books
    ensures |Serve(books, CreateBook(details), header, verify).0| == |books|
    ensures Serve(books, CreateBook(details), header, verify).1.Response? ==>
      Serve(books, CreateBook(details), header, verify).1.body.Message?
  {
  }

  /** A create carrying a token without the admin scope is answered with
      403 and leaves the list unchanged. */
  lemma CreateWithoutAdminForbidden<D>(books: seq<Book<D>>, details: D, header: string, verify: Verifier)
    requires |Fields(header)| >= 2
    requires verify(Fields(header)[1]).Decoded?
    requires AdminScope !in Scopes(verify(Fields(header)[1]).claims)
    ensures Serve(books, CreateBook(details), Some(header), verify) ==
      (books, Response(403, Message("fakebookapi.admin scope is required")))
  {
    var request: Request<D> := CreateBook(details);
    assert RequiredScope(request) == AdminScope;
    MissingScopeForbidden(header, verify, AdminScope);
    var d := Decide(Some(header), verify, AdminScope);
    assert d == Reject(403, ScopeMessage(AdminScope));
    assert Serve(books, request, Some(header), verify) == Respond(books, request, d);
    assert ScopeMessage(AdminScope) == "fakebookapi.admin scope is required";
  }

  /** Without a header every resource answers 401 and nothing runs. */
  lemma NoHeaderUnauthorized<D>(books: seq<Book<D>>, request: Request<D>, header: Option<string>, verify: Verifier)
    requires !HasHeader(header)
    ensures Serve(books, request, header, verify) ==
      (books, Response(401, Message("Missing Authorization Header")))
  {
  }

  /** Numbering by position holds after every call, admitted or not. */
  lemma ServeKeepsNumbered<D>(books: seq<Book<D>>, request: Request<D>, header: Option<string>, verify: Verifier)
    requires Numbered(books)
    ensures Numbered(Serve(books, request, header, verify).0)
    ensures Numbered(ServeStrict(books, request, header, verify).0)
  {
    if request.CreateBook? {
      AppendKeepsNumbered(books, request.details);
    }
  }

  /** One call of a run: the request, its header, and the library's
      verdicts at the time of the call (expiry depends on the clock and the
      key set may change between calls). */
  type Call<D> = (Request<D>, Option<string>, Verifier)

  /** The list reached by a run of calls, each served as written. */
  function Replay<D>(books: seq<Book<D>>, calls: seq<Call<D>>): (r: seq<Book<D>>)
    ensures |calls| == 0 ==> r == books
    decreases |calls|
  {
    if |calls| == 0 then books
    else Replay(Serve(books, calls[0].0, calls[0].1, calls[0].2).0, calls[1..])
  }

  /** Any run of calls, whatever the library says at each of them, keeps
      the list numbered. */
  lemma {:induction false} ReplayKeepsNumbered<D>(books: seq<Book<D>>, calls: seq<Call<D>>)
    requires Numbered(books)
    ensures Numbered(Replay(books, calls))
    decreases |calls|
  {
    if |calls| > 0 {
      ServeKeepsNumbered(books, calls[0].0, calls[0].1, calls[0].2);
      ReplayKeepsNumbered(Serve(books, calls[0].0, calls[0].1, calls[0].2).0, calls[1..]);
    }
  }

  /** A read-scoped token opens the listing, which returns the five seeded
      books with ids 1 to 5 in their original order. */
  lemma SeedListing(header: string, verify: Verifier)
    requires |Fields(header)| >= 2
    requires verify(Fields(header)[1]).Decoded?
    requires ReadScope in Scopes(verify(Fields(header)[1]).claims)
    ensures var (next, response) := Serve(Seed(), ListBooks, Some(header), verify);
      && next == Seed()
      && response.Response? && response.status == 200 && response.body.BookList?
      && response.body.books == Seed()
      && |response.body.books| == 5
      && forall i :: 0 <= i < 5 ==> response.body.books[i].id == i + 1
  {
    var books := Seed();
    var request: Request<Details> := ListBooks;
    assert RequiredScope(request) == ReadScope;
    assert Decide(Some(header), verify, ReadScope).Invoke?;
    assert Serve(books, request, Some(header), verify) == (books, Response(200, BookList(books)));
    SeedNumbered();
  }

  /** With the corrected gate no call ends in an escaping exception, and a
      refused call leaves the list as it was. */
  lemma ServeStrictNeverRaises<D>(books: seq<Book<D>>, request: Request<D>, header: Option<string>, verify: Verifier)
    ensures !ServeStrict(books, request, header, verify).1.Raised?
    ensures !DecideStrict(header, verify, RequiredScope(request)).Invoke? ==>
      ServeStrict(books, request, header, verify).0 == books
  {
  }

  /** With a read-scoped token, fetching an id outside 1..length from a
      numbered list answers 404 and changes nothing. */
  lemma MissingBookNotFound<D>(books: seq<Book<D>>, id: nat, header: string, verify: Verifier)
    requires Numbered(books) && !(1 <= id <= |books|)
    requires |Fields(header)| >= 2
    requires verify(Fields(header)[1]).Decoded?
    requires ReadScope in Scopes(verify(Fields(header)[1]).claims)
    ensures Serve(books, GetBook(id), Some(header), verify) == (books, Response(404, Message(NotFoundMessage)))
  {
    var request: Request<D> := GetBook(id);
    assert RequiredScope(request) == ReadScope;
    LookupNumbered(books, id);
  }

  /** Book 999 is not among the five seeded books. */
  lemma SeedMissingBook(header: string, verify: Verifier)
    requires |Fields(header)| >= 2
    requires verify(Fields(header)[1]).Decoded?
    requires ReadScope in Scopes(verify(Fields(header)[1]).claims)
    ensures Serve(Seed(), GetBook(999), Some(header), verify) ==
      (Seed(), Response(404, Message("Book not found")))
  {
    SeedNumbered();
    MissingBookNotFound(Seed(), 999, header, verify);
  }
}
