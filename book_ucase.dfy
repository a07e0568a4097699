/**
 * The service layer: five operations that forward to the repository and hand back its
 * results and errors unchanged. Each is proved to have exactly the repository's effect.
 */
module UseCase {
  import opened Wrappers
  import opened Domain
  import opened BookStore
  import opened Repository

  class BookUseCase {
    const bookRepository: InMemoryBookRepository

    constructor (bookRepository: InMemoryBookRepository)
      ensures this.bookRepository == bookRepository
    {
      this.bookRepository := bookRepository;
    }

    method FetchBooks() returns (r: Result<seq<Book>, AppError>)
      ensures r == Fetch(bookRepository.books)
    {
      r := bookRepository.FetchBooks();
    }

    method GetBookByID(id: string) returns (r: Result<Book, AppError>)
      ensures r == Lookup(bookRepository.books, id)
    {
      r := bookRepository.GetBookByID(id);
    }

    method CreateBook(book: BookRef, freshId: string) returns (err: Outcome<AppError>)
      requires !HasId(bookRepository.books, freshId)
      modifies bookRepository, book
      ensures var e := Create(old(bookRepository.books), old(book.val), freshId);
              err == e.outcome && bookRepository.books == e.books && book.val == e.caller
    {
      err := bookRepository.CreateBook(book, freshId);
    }

    method UpdateBook(id: string, book: BookRef) returns (err: Outcome<AppError>)
      modifies bookRepository, book
      ensures var e := Update(old(bookRepository.books), id, old(book.val));
              err == e.outcome && bookRepository.books == e.books && book.val == e.caller
    {
      err := bookRepository.UpdateBook(id, book);
    }

    method DeleteBook(id: string) returns (err: Outcome<AppError>)
      modifies bookRepository
      ensures var r := Delete(old(bookRepository.books), id);
              err == r.outcome && bookRepository.books == r.books
    {
      err := bookRepository.DeleteBook(id);
    }
  }
}
