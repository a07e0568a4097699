/**
 * The in-memory repository: one ordered collection of books that the operations scan
 * front to back and update in place. Each operation runs atomically (the source holds
 * one mutex for its whole body), and each is proved to agree with its BookStore function.
 */
module Repository {
  import opened Wrappers
  import opened Domain
  import opened BookStore

  class InMemoryBookRepository {
    var books: seq<Book>

    /** A new repository holds no books. */
    constructor ()
      ensures books == []
    {
      books := [];
    }

    /** The whole collection, or NotFound("Book", "ID", "") when it is empty. */
    method FetchBooks() returns (r: Result<seq<Book>, AppError>)
      ensures r == Fetch(books)
    {
      if |books| == 0 {
        return Err(BookNotFound(""));
      }
      return Ok(books);
    }

    /** The first book whose id is `id`, or NotFound carrying `id`. */
    method GetBookByID(id: string) returns (r: Result<Book, AppError>)
      ensures r == Lookup(books, id)
    {
      for i := 0 to |books|
        invariant forall j :: 0 <= j < i ==> books[j].id != id
      {
        if books[i].id == id {
          return Ok(books[i]);
        }
      }
      return Err(BookNotFound(id));
    }

    /**
     * Conflict when a stored book has the caller's triple; otherwise writes `freshId`
     * into the caller's book and appends a copy of it. `freshId` stands for the
     * generated identifier, which no stored book carries.
     */
    method CreateBook(book: BookRef, freshId: string) returns (err: Outcome<AppError>)
      requires !HasId(books, freshId)
      modifies this, book
      ensures var e := Create(old(books), old(book.val), freshId);
              err == e.outcome && books == e.books && book.val == e.caller
    {
      for i := 0 to |books|
        invariant forall j :: 0 <= j < i ==> !SameTriple(books[j], book.val)
      {
        var b := books[i];
        if b.title == book.val.title && b.author == book.val.author
           && b.publicationYear == book.val.publicationYear
        {
          return Fail(DuplicateBook);
        }
      }
      book.val := book.val.(id := freshId);
      books := books + [book.val];
      return Pass;
    }

    /**
     * NotFound when no stored book has `id`; otherwise the caller's book takes the stored
     * id and a copy of it replaces the first matching slot.
     */
    method UpdateBook(id: string, book: BookRef) returns (err: Outcome<AppError>)
      modifies this, book
      ensures var e := Update(old(books), id, old(book.val));
              err == e.outcome && books == e.books && book.val == e.caller
    {
      for i := 0 to |books|
        invariant books == old(books) && book.val == old(book.val)
        invariant forall j :: 0 <= j < i ==> books[j].id != id
      {
        if books[i].id == id {
          book.val := book.val.(id := books[i].id);
          books := books[i := book.val];
          return Pass;
        }
      }
      return Fail(BookNotFound(id));
    }

    /** NotFound when no stored book has `id`; otherwise the first such book is removed. */
    method DeleteBook(id: string) returns (err: Outcome<AppError>)
      modifies this
      ensures var r := Delete(old(books), id);
              err == r.outcome && books == r.books
    {
      for i := 0 to |books|
        invariant books == old(books)
        invariant forall j :: 0 <= j < i ==> books[j].id != id
      {
        if books[i].id == id {
          books := books[..i] + books[i + 1..];
          return Pass;
        }
      }
      return Fail(BookNotFound(id));
    }
  }
}
