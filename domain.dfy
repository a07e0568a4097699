/** The book record and the application errors the store produces. */
module Domain {

  /** One book. `id` is the textual form of the store-assigned identifier. */
  datatype Book = Book(id: string, title: string, author: string, publicationYear: string)

  /** The typed application errors of the store: a missing record, or duplicate content. */
  datatype AppError =
    | NotFound(resource: string, field: string, value: string)
    | Conflict(resource: string, field: string)

  /** The error every id lookup, update and delete reports for an unknown id. */
  function BookNotFound(id: string): AppError
  {
    NotFound("Book", "ID", id)
  }

  /** The error a create reports when the (title, author, publication year) triple exists. */
  const DuplicateBook: AppError := Conflict("book", "title, author, and publication year")

  /** A caller-owned `*Book`: the store writes the assigned or preserved id back through it. */
  class BookRef {
    var val: Book

    constructor (b: Book)
      ensures val == b
    {
      val := b;
    }
  }
}
