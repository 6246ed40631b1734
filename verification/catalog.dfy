/** The in-memory book list: an ordered, append-only sequence of books,
    each numbered by its position. */
module Catalog {
  import opened Wrappers

  /** A book: its number and the fields the catalog only stores and hands
      back (title, author, cost, page count). */
  datatype Book<D> = Book(id: int, details: D)

  datatype Details = Details(title: string, author: string, cost: real, numPages: int)

  /** Every book's id is its 1-based position in the list. */
  predicate Numbered<D>(books: seq<Book<D>>) {
    forall i :: 0 <= i < |books| ==> books[i].id == i + 1
  }

  /** The five books the service starts with, numbered 1 to 5. */
  function Seed(): (books: seq<Book<Details>>)
    ensures |books| == 5
  {
    [ Book(1, Details("And Then There Were None", "Agatha Christie", 7.99, 300)),
      Book(2, Details("A Study in Scarlet", "Arthur Conan Doyle", 7.99, 108)),
      Book(3, Details("The Day of the Jackal", "Frederick Forsyth", 9.99, 464)),
      Book(4, Details("The Wisdom of Father Brown", "G.K. Chesterton", 7.99, 136)),
      Book(5, Details("The Poet", "Michael Connelly", 15.90, 528)) ]
  }

  lemma SeedNumbered()
    ensures Numbered(Seed())
  {
  }

  /** The position of the first book with the given id: a linear scan from
      the front that stops at the first match. */
  function IndexOf<D>(books: seq<Book<D>>, id: int): (r: Option<nat>)
    ensures r.Some? ==> r.value < |books| && books[r.value].id == id
    ensures r.Some? ==> forall j :: 0 <= j < r.value ==> books[j].id != id
    ensures r.None? ==> forall j :: 0 <= j < |books| ==> books[j].id != id
  {
    if |books| == 0 then None
    else if books[0].id == id then Some(0)
    else
      match IndexOf(books[1..], id)
      case None => None
      case Some(k) => Some(k + 1)
  }

  /** The first book with the given id, if any. */
  function Lookup<D>(books: seq<Book<D>>, id: int): (r: Option<Book<D>>)
    ensures r.Some? ==> r.value in books && r.value.id == id
    ensures r.Some? ==> exists k :: 0 <= k < |books| && r.value == books[k] && forall j :: 0 <= j < k ==> books[j].id != id
    ensures r.None? <==> forall b <- books :: b.id != id
  {
    match IndexOf(books, id)
    case None => None
    case Some(k) =>
      assert forall j :: 0 <= j < k ==> books[j].id != id;
      Some(books[k])
  }

  /** In a numbered list the first book with id `n` is the `n`-th one, and
      there is none outside 1..|books|. */
  lemma LookupNumbered<D>(books: seq<Book<D>>, id: int)
    requires Numbered(books)
    ensures 1 <= id <= |books| ==> Lookup(books, id) == Some(books[id - 1])
    ensures !(1 <= id <= |books|) ==> Lookup(books, id) == None
  {
  }

  /** Adds a book at the end, numbered one past the current length. */
  function Append<D>(books: seq<Book<D>>, details: D): (r: seq<Book<D>>)
    ensures |r| == |books| + 1
    ensures r[..|books|] == books
    ensures r[|books|] == Book(|books| + 1, details)
  {
    books + [Book(|books| + 1, details)]
  }

  lemma AppendKeepsNumbered<D>(books: seq<Book<D>>, details: D)
    requires Numbered(books)
    ensures Numbered(Append(books, details))
  {
    var r := Append(books, details);
    forall i | 0 <= i < |r|
      ensures r[i].id == i + 1
    {
      if i < |books| {
        assert r[i] == r[..|books|][i];
      }
    }
  }

  /** After appending, a lookup of the new number finds the new book, and
      every earlier book is found as before. */
  lemma AppendThenLookup<D>(books: seq<Book<D>>, details: D, id: int)
    requires Numbered(books)
    ensures Lookup(Append(books, details), |books| + 1) == Some(Book(|books| + 1, details))
    ensures id != |books| + 1 ==> Lookup(Append(books, details), id) == Lookup(books, id)
  {
    var r := Append(books, details);
    AppendKeepsNumbered(books, details);
    LookupNumbered(r, |books| + 1);
    LookupNumbered(r, id);
    LookupNumbered(books, id);
    if 1 <= id <= |books| {
      assert r[id - 1] == r[..|books|][id - 1];
    }
  }
}
