# In-memory book store, modelled in Dafny

This project models the storage core of a small book-catalogue HTTP service: the
in-memory repository that keeps one ordered collection of `Book` records
(id, title, author, publication year), and the service layer that forwards to it.

- `domain.dfy` — `Book` as a datatype, the two application errors
  `NotFound(resource, field, value)` and `Conflict(resource, field)`, and `BookRef`, the
  caller-owned `*Book` that create and update write an id back through.
- `book_store.dfy` — module `BookStore`: each store operation as a function from the
  current collection to its result and the next collection, and the properties that hold
  across operations (uniqueness of triples and ids, lookups after create, update and
  delete, the outcome of racing creates).
- `book_repo.dfy` — module `Repository`: the class `InMemoryBookRepository` with a
  `books: seq<Book>` field and the five operations as scan loops with early return,
  each proved to agree with its `BookStore` function.
- `book_ucase.dfy` — module `UseCase`: the class `BookUseCase`, whose five methods
  forward to the repository and are proved to have exactly its effect.
- `book_repo_scenarios.dfy` — two client runs of the repository: n creates of one book,
  and one book's create, update and delete.

Every operation holds the store's mutex for its whole body, so each is modelled as one
atomic step; concurrent callers become a sequence of such steps in the order the lock
admits them. The generated identifier of a create (`uuid.New()`) is a parameter
`freshId`, with the precondition that no stored book already carries it. Identifiers are
their textual form (`string`), so the source's `ID.String() == id` test is string equality.

## Model

| member | source | states |
|---|---|---|
| `Repository.InMemoryBookRepository.constructor` | repository/book_repo.go:17-21 | a new repository holds the empty sequence of books |
| `BookStore.IndexOf` | repository/book_repo.go:35-39 | the scan for an id stops at the first position holding it, and finds none exactly when no stored book has it |
| `BookStore.Fetch` | repository/book_repo.go:27-31 | fetching fails with `NotFound("Book","ID","")` exactly when the collection is empty, and otherwise returns the whole collection |
| `Repository.InMemoryBookRepository.FetchBooks` | repository/book_repo.go:23-32 | the method returns what `Fetch` gives for the current collection and changes nothing |
| `BookStore.Lookup` | repository/book_repo.go:34-42 | a lookup succeeds exactly when some book has the id, returns the first such book, and otherwise fails with `NotFound("Book","ID",id)` |
| `Repository.InMemoryBookRepository.GetBookByID` | repository/book_repo.go:34-42 | the scan loop returns what `Lookup` gives and changes nothing |
| `BookStore.Create` | repository/book_repo.go:49-58 | a create fails with `Conflict("book","title, author, and publication year")` exactly when a stored book has the triple, leaving collection and caller's book unchanged; otherwise the caller's book gets the fresh id and is appended, the earlier records untouched and the length one more |
| `Repository.InMemoryBookRepository.CreateBook` | repository/book_repo.go:44-59 | the triple-check loop and append return the outcome of `Create` and leave the collection and the caller's book as `Create` says |
| `BookStore.Update` | repository/book_repo.go:65-73 | an update fails with `NotFound("Book","ID",id)` exactly when no book has the id, changing nothing; otherwise the first matching slot becomes the caller's book carrying the stored id; no triple check; the length and every slot's id are kept |
| `Repository.InMemoryBookRepository.UpdateBook` | repository/book_repo.go:61-74 | the scan loop returns the outcome of `Update` and leaves the collection and the caller's book as `Update` says |
| `BookStore.Delete` | repository/book_repo.go:80-87 | a delete fails with `NotFound("Book","ID",id)` exactly when no book has the id, changing nothing; otherwise the first matching book is cut out, `books[..i] + books[i+1..]`, the rest kept in order |
| `Repository.InMemoryBookRepository.DeleteBook` | repository/book_repo.go:76-88 | the scan loop returns the outcome of `Delete` and leaves the collection as `Delete` says |
| `BookStore.FetchEmptyThenCreate` | repository/book_repo_test.go:12-38 | fetching a new store fails with NotFound; after one create it returns exactly the created book |
| `BookStore.CreateThenLookup` | repository/book_repo_test.go:106-115 | after a successful create with a fresh id, looking that id up returns the caller's book as stored |
| `BookStore.CreatePreservesTriplesUnique` | repository/book_repo.go:49-56 | if no two stored books share a triple, none do after a create |
| `BookStore.CreatePreservesIdsUnique` | repository/book_repo.go:55-56 | with a fresh id, a create keeps identifiers unique |
| `BookStore.DeletePreservesTriplesUnique` | repository/book_repo.go:80-84 | if no two stored books share a triple, none do after a delete |
| `BookStore.DeletePreservesIdsUnique` | repository/book_repo.go:80-84 | a delete keeps identifiers unique |
| `BookStore.DeleteThenLookupFails` | repository/book_repo_test.go:219-231 | with unique identifiers, looking up a deleted id fails with NotFound |
| `BookStore.DeleteTwiceFails` | repository/book_repo_test.go:187-217 | with unique identifiers, a second delete of the same id fails with NotFound and changes nothing |
| `BookStore.UpdateThenLookup` | repository/book_repo_test.go:161-174 | after a successful update, looking the id up returns the caller's new title, author and year under the same id |
| `BookStore.UpdateLastWriterWins` | repository/book_repo_test.go:128-159 | two updates of one id leave the collection as the second alone would |
| `BookStore.UpdateCanDuplicateTriples` | repository/book_repo.go:65-70 | an update can leave two books with one triple, since it makes no triple check |
| `BookStore.CreateEach` | repository/book_repo_test.go:81-88 | a run of creates of one caller's book yields one outcome per generated id |
| `BookStore.Failures` | repository/book_repo_test.go:95-100 | the count of failed outcomes is at most the number of outcomes |
| `BookStore.AllFailures` | repository/book_repo_test.go:95-100 | outcomes that all failed count as that many failures |
| `BookStore.CreatesAfterTripleConflict` | repository/book_repo.go:49-53 | once the triple is stored, every further create of it fails with Conflict and changes neither the collection nor the caller's book |
| `BookStore.SameTripleCreates` | repository/book_repo_test.go:74-104 | n creates of a triple no stored book has: the first succeeds, the other n−1 fail with Conflict, and exactly one stored book ends with that triple |
| `RepositoryScenarios.ConcurrentCreates` | repository/book_repo_test.go:74-104 | n creates of one book into a new repository, serialised by the lock, give n−1 errors and leave just that book, with the first generated id |
| `RepositoryScenarios.Lifecycle` | repository/book_repo_test.go:161-231 | a created book reads back as created, then with its new title after an update, then as NotFound after a delete |
| `UseCase.BookUseCase.constructor` | usecase/book_ucase.go:13-17 | the service keeps the repository it is given |
| `UseCase.BookUseCase.FetchBooks` | usecase/book_ucase.go:19-21 | returns exactly the repository's fetch result and error |
| `UseCase.BookUseCase.GetBookByID` | usecase/book_ucase.go:23-25 | returns exactly the repository's lookup result for the same id |
| `UseCase.BookUseCase.CreateBook` | usecase/book_ucase.go:27-29 | has exactly the repository's create effect, including the id written into the caller's book, and returns its error unchanged |
| `UseCase.BookUseCase.UpdateBook` | usecase/book_ucase.go:31-33 | forwards the id and the book and has exactly the repository's update effect and error |
| `UseCase.BookUseCase.DeleteBook` | usecase/book_ucase.go:35-37 | forwards the id and has exactly the repository's delete effect and error |

## Left out

- The mutex and goroutines: each operation is one atomic step, so interleavings inside an operation are not modelled; racing callers are modelled as some serial order.
- GetBookByID reads the collection without taking the lock (repository/book_repo.go:34-42); the data race this allows with concurrent writers is not modelled, and the lookup is treated as atomic like the rest.
- Identifier generation: `uuid.New()` is replaced by a caller-supplied `freshId` that no stored book carries; its randomness, its 128-bit format and the non-emptiness of its textual form are not modelled.
- `context.Context` parameters: the operations never read them.
- Aliasing of the collection: FetchBooks returns a pointer to the repository's own slice, and DeleteBook's `append` shifts elements inside the same backing array; the model returns and stores sequence values, so a caller never observes later changes through a fetched result.
- Interfaces: `domain.BookRepository` and `domain.BookUseCase` are modelled by their one production implementation each; the service holds an `InMemoryBookRepository` directly, and the test doubles in domain/appmock are not part of this model.
- The HTTP layer (routing, JSON binding and `binding:"required"` validation, response envelopes, status mapping), the timeout middleware and the environment wiring in injection.go: transport and configuration over libraries that are not part of this model.
