/**
 * Client runs of the repository, as its tests drive it: racing creates of one book
 * (serialised by the lock, so in some order), and one book's create-update-delete life.
 */
module RepositoryScenarios {
  import opened Wrappers
  import opened Domain
  import opened BookStore
  import opened Repository

  /**
   * |ids| creates of the same caller's book into a new repository; `ids` are the
   * identifiers generated for the calls, in the order the lock admitted them.
   * All but the first fail.
   */
  method ConcurrentCreates(book: Book, ids: seq<string>) returns (errCount: nat, stored: seq<Book>)
    requires |ids| >= 1
    requires forall i, j :: 0 <= i < j < |ids| ==> ids[i] != ids[j]
    ensures errCount == |ids| - 1
    ensures stored == [book.(id := ids[0])]
  {
    var repo := new InMemoryBookRepository();
    var ref := new BookRef(book);
    errCount := 0;
    for k := 0 to |ids|
      invariant repo.books == if k == 0 then [] else [book.(id := ids[0])]
      invariant ref.val == if k == 0 then book else book.(id := ids[0])
      invariant errCount == if k == 0 then 0 else k - 1
    {
      var err := repo.CreateBook(ref, ids[k]);
      if err.Fail? {
        errCount := errCount + 1;
      }
    }
    stored := repo.books;
  }

  /**
   * Create a book, read it back, change its title, read it back, delete it and read
   * again: the reads see the created book, then the retitled book, then NotFound.
   */
  method Lifecycle(book: Book, newTitle: string, freshId: string)
    returns (created: Result<Book, AppError>, updated: Result<Book, AppError>, deleted: Result<Book, AppError>)
    ensures created == Ok(book.(id := freshId))
    ensures updated == Ok(book.(id := freshId, title := newTitle))
    ensures deleted == Err(BookNotFound(freshId))
  {
    var repo := new InMemoryBookRepository();
    var ref := new BookRef(book);
    var err := repo.CreateBook(ref, freshId);
    created := repo.GetBookByID(ref.val.id);

    ref.val := ref.val.(title := newTitle);
    err := repo.UpdateBook(freshId, ref);
    updated := repo.GetBookByID(freshId);

    err := repo.DeleteBook(freshId);
    deleted := repo.GetBookByID(freshId);
  }
}
