/**
 * The in-memory book store as a state machine over `seq<Book>`: what each of the five
 * operations returns and what the collection becomes, and the properties that hold
 * across operations. The class in module Repository is proved against these functions.
 */
module BookStore {
  import opened Wrappers
  import opened Domain

  /** Two books carry the same (title, author, publication year) triple. */
  predicate SameTriple(a: Book, b: Book)
  {
    a.title == b.title && a.author == b.author && a.publicationYear == b.publicationYear
  }

  /** Some stored book has the triple of `b`. */
  predicate HasTriple(books: seq<Book>, b: Book)
  {
    exists i :: 0 <= i < |books| && SameTriple(books[i], b)
  }

  /** Some stored book has the identifier `id`. */
  predicate HasId(books: seq<Book>, id: string)
  {
    exists i :: 0 <= i < |books| && books[i].id == id
  }

  /** Position `i` is the first one holding the identifier `id`. */
  predicate FirstWithId(books: seq<Book>, id: string, i: int)
  {
    0 <= i < |books| && books[i].id == id && forall j :: 0 <= j < i ==> books[j].id != id
  }

  /** No two stored books share a triple: the rule the create operation enforces. */
  predicate TriplesUnique(books: seq<Book>)
  {
    forall i, j :: 0 <= i < j < |books| ==> !SameTriple(books[i], books[j])
  }

  /** No two stored books share an identifier. */
  predicate IdsUnique(books: seq<Book>)
  {
    forall i, j :: 0 <= i < j < |books| ==> books[i].id != books[j].id
  }

  /** The position a front-to-back scan for `id` stops at, if any. */
  function IndexOf(books: seq<Book>, id: string): (r: Option<nat>)
    ensures r.None? <==> !HasId(books, id)
    ensures r.Some? ==> FirstWithId(books, id, r.value)
  {
    if |books| == 0 then None
    else if books[0].id == id then Some(0)
    else
      match IndexOf(books[1..], id)
      case None => None
      case Some(k) => Some(k + 1)
  }

  /** FetchBooks: the whole collection, or NotFound when it is empty. */
  function Fetch(books: seq<Book>): (r: Result<seq<Book>, AppError>)
    ensures r.Err? <==> |books| == 0
    ensures r.Err? ==> r.error == BookNotFound("")
    ensures r.Ok? ==> r.value == books
  {
    if |books| == 0 then Err(BookNotFound("")) else Ok(books)
  }

  /** GetBookByID: the first book with the identifier, or NotFound carrying the identifier. */
  function Lookup(books: seq<Book>, id: string): (r: Result<Book, AppError>)
    ensures r.Ok? <==> HasId(books, id)
    ensures r.Ok? ==> exists i :: FirstWithId(books, id, i) && r.value == books[i]
    ensures r.Err? ==> r.error == BookNotFound(id)
  {
    match IndexOf(books, id)
    case None => Err(BookNotFound(id))
    case Some(i) => Ok(books[i])
  }

  /** What a create, update or delete returns, the collection after it, and the caller's book after it. */
  datatype Effect = Effect(outcome: Outcome<AppError>, books: seq<Book>, caller: Book)

  /**
   * CreateBook: Conflict when the triple is already stored (nothing changes, the caller's
   * book keeps its id); otherwise the caller's book gets `freshId` and is appended.
   */
  function Create(books: seq<Book>, book: Book, freshId: string): (r: Effect)
    ensures r.outcome.Fail? <==> HasTriple(books, book)
    ensures r.outcome.Fail? ==> r.outcome.error == DuplicateBook && r.books == books && r.caller == book
    ensures r.outcome.Pass? ==>
              && r.caller == book.(id := freshId)
              && |r.books| == |books| + 1
              && r.books[..|books|] == books
              && r.books[|books|] == r.caller
  {
    if HasTriple(books, book) then
      Effect(Fail(DuplicateBook), books, book)
    else
      var b := book.(id := freshId);
      Effect(Pass, books + [b], b)
  }

  /**
   * UpdateBook: NotFound when no book has `id`; otherwise the first such slot is replaced
   * by the caller's book carrying the stored id. No triple check is made. Every slot keeps
   * its id.
   */
  function Update(books: seq<Book>, id: string, book: Book): (r: Effect)
    ensures r.outcome.Fail? <==> !HasId(books, id)
    ensures r.outcome.Fail? ==> r.outcome.error == BookNotFound(id) && r.books == books && r.caller == book
    ensures |r.books| == |books|
    ensures forall j :: 0 <= j < |books| ==> r.books[j].id == books[j].id
    ensures r.outcome.Pass? ==>
              && r.caller == book.(id := id)
              && exists i :: FirstWithId(books, id, i) && r.books == books[i := r.caller]
  {
    match IndexOf(books, id)
    case None => Effect(Fail(BookNotFound(id)), books, book)
    case Some(i) =>
      var b := book.(id := books[i].id);
      Effect(Pass, books[i := b], b)
  }

  /** What a delete returns and the collection after it. */
  datatype Removal = Removal(outcome: Outcome<AppError>, books: seq<Book>)

  /** DeleteBook: NotFound when no book has `id`; otherwise the first such book is cut out. */
  function Delete(books: seq<Book>, id: string): (r: Removal)
    ensures r.outcome.Fail? <==> !HasId(books, id)
    ensures r.outcome.Fail? ==> r.outcome.error == BookNotFound(id) && r.books == books
    ensures r.outcome.Pass? ==>
              && |r.books| == |books| - 1
              && exists i :: FirstWithId(books, id, i) && r.books == books[..i] + books[i + 1..]
  {
    match IndexOf(books, id)
    case None => Removal(Fail(BookNotFound(id)), books)
    case Some(i) => Removal(Pass, books[..i] + books[i + 1..])
  }

  // ---------------------------------------------------------------------------------
  // Properties across operations
  // ---------------------------------------------------------------------------------

  /** Fetching an empty store fails; after one create it returns a collection holding the new book. */
  lemma FetchEmptyThenCreate(book: Book, freshId: string)
    ensures Fetch([]) == Err(BookNotFound(""))
    ensures var e := Create([], book, freshId);
            e.outcome == Pass && Fetch(e.books) == Ok([e.caller]) && e.caller.id == freshId
  {
  }

  /** After a successful create with a fresh id, looking that id up yields the caller's book. */
  lemma CreateThenLookup(books: seq<Book>, book: Book, freshId: string)
    requires !HasId(books, freshId)
    ensures var e := Create(books, book, freshId);
            e.outcome.Pass? ==> Lookup(e.books, freshId) == Ok(e.caller)
  {
  }

  /** A create never introduces a second book with a stored triple. */
  lemma CreatePreservesTriplesUnique(books: seq<Book>, book: Book, freshId: string)
    requires TriplesUnique(books)
    ensures TriplesUnique(Create(books, book, freshId).books)
  {
  }

  /** A create with a fresh id keeps identifiers unique. */
  lemma CreatePreservesIdsUnique(books: seq<Book>, book: Book, freshId: string)
    requires IdsUnique(books) && !HasId(books, freshId)
    ensures IdsUnique(Create(books, book, freshId).books)
  {
  }

  /** A delete never introduces two books with the same triple. */
  lemma DeletePreservesTriplesUnique(books: seq<Book>, id: string)
    requires TriplesUnique(books)
    ensures TriplesUnique(Delete(books, id).books)
  {
  }

  /** A delete never introduces two books with the same identifier. */
  lemma DeletePreservesIdsUnique(books: seq<Book>, id: string)
    requires IdsUnique(books)
    ensures IdsUnique(Delete(books, id).books)
  {
  }

  /** With unique identifiers, a deleted identifier can no longer be looked up. */
  lemma DeleteThenLookupFails(books: seq<Book>, id: string)
    requires IdsUnique(books)
    ensures var r := Delete(books, id);
            r.outcome.Pass? ==> Lookup(r.books, id) == Err(BookNotFound(id))
  {
  }

  /** With unique identifiers, deleting the same identifier twice fails the second time. */
  lemma DeleteTwiceFails(books: seq<Book>, id: string)
    requires IdsUnique(books)
    ensures var r := Delete(books, id);
            r.outcome.Pass? ==> Delete(r.books, id) == Removal(Fail(BookNotFound(id)), r.books)
  {
  }

  /** After a successful update, looking the identifier up yields the caller's new book. */
  lemma UpdateThenLookup(books: seq<Book>, id: string, book: Book)
    ensures var e := Update(books, id, book);
            e.outcome.Pass? ==>
              Lookup(e.books, id) == Ok(e.caller) && e.caller.title == book.title
              && e.caller.author == book.author && e.caller.publicationYear == book.publicationYear
  {
  }

  /** Two updates of one identifier leave the collection as the second update alone would. */
  lemma UpdateLastWriterWins(books: seq<Book>, id: string, first: Book, second: Book)
    ensures Update(Update(books, id, first).books, id, second).books == Update(books, id, second).books
  {
  }

  /** An update does not re-check triples: it can leave two books with the same triple. */
  lemma UpdateCanDuplicateTriples()
    ensures var a := Book("1", "Dune", "Herbert", "1965");
            var b := Book("2", "Emma", "Austen", "1815");
            TriplesUnique([a, b]) && !TriplesUnique(Update([a, b], "2", a).books)
  {
  }

  // ---------------------------------------------------------------------------------
  // Racing creates, serialised by the store's lock
  // ---------------------------------------------------------------------------------

  /** The outcomes of a run of creates of one caller's book, and the state they leave. */
  datatype Trace = Trace(outcomes: seq<Outcome<AppError>>, books: seq<Book>, caller: Book)

  /** Creates of the same caller's book, one after another, drawing `ids` as the fresh identifiers. */
  function CreateEach(books: seq<Book>, book: Book, ids: seq<string>): (t: Trace)
    ensures |t.outcomes| == |ids|
    decreases |ids|
  {
    if ids == [] then Trace([], books, book)
    else
      var e := Create(books, book, ids[0]);
      var rest := CreateEach(e.books, e.caller, ids[1..]);
      Trace([e.outcome] + rest.outcomes, rest.books, rest.caller)
  }

  /** The number of failed outcomes. */
  function Failures(outcomes: seq<Outcome<AppError>>): (n: nat)
    ensures n <= |outcomes|
  {
    if outcomes == [] then 0
    else (if outcomes[0].Fail? then 1 else 0) + Failures(outcomes[1..])
  }

  /** A run of outcomes that all failed counts as that many failures. */
  lemma {:induction false} AllFailures(outcomes: seq<Outcome<AppError>>)
    requires forall k :: 0 <= k < |outcomes| ==> outcomes[k].Fail?
    ensures Failures(outcomes) == |outcomes|
  {
    if outcomes != [] {
      AllFailures(outcomes[1..]);
    }
  }

  /** Once the triple is stored, every further create of it fails with Conflict and changes nothing. */
  lemma {:induction false} CreatesAfterTripleConflict(books: seq<Book>, book: Book, ids: seq<string>)
    requires HasTriple(books, book)
    ensures var t := CreateEach(books, book, ids);
            && t.books == books && t.caller == book
            && forall k :: 0 <= k < |ids| ==> t.outcomes[k] == Fail(DuplicateBook)
    decreases |ids|
  {
    if ids != [] {
      CreatesAfterTripleConflict(books, book, ids[1..]);
    }
  }

  /**
   * n creates of one triple that no stored book has: the first succeeds, the other n - 1 fail
   * with Conflict, and exactly one stored book ends up with the triple.
   */
  lemma SameTripleCreates(books: seq<Book>, book: Book, ids: seq<string>)
    requires !HasTriple(books, book) && |ids| >= 1
    ensures var t := CreateEach(books, book, ids);
            && t.outcomes[0] == Pass
            && (forall k :: 1 <= k < |ids| ==> t.outcomes[k] == Fail(DuplicateBook))
            && Failures(t.outcomes) == |ids| - 1
            && t.books == books + [book.(id := ids[0])]
            && forall i :: 0 <= i < |t.books| && SameTriple(t.books[i], book) ==> i == |books|
  {
    var e := Create(books, book, ids[0]);
    assert SameTriple(e.books[|books|], e.caller);
    CreatesAfterTripleConflict(e.books, e.caller, ids[1..]);
    var t := CreateEach(books, book, ids);
    AllFailures(t.outcomes[1..]);
    assert t.outcomes == [Pass] + t.outcomes[1..];
  }
}
