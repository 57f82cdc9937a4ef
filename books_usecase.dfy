/** The book use cases: creation owned by the caller, listings, lookup, the
    overwriting update and deletion over the book repository. */
module BooksUsecase {
  import opened Wrappers
  import opened Models
  import opened BooksRepository

  /** The update of a book: name, author, publication date and description are always
      overwritten, even with empty values; the image only when the input gives one;
      the id, the category, the owner and the timestamps are kept. */
  function MergeBook(b: Book, input: UpdateBook): (r: Book)
    ensures r.name == input.name && r.author == input.author
    ensures r.publicDate == input.publicDate && r.description == input.description
    ensures r.image == (if input.image != "" then input.image else b.image)
    ensures r.id == b.id && r.categoryID == b.categoryID && r.userID == b.userID
    ensures r.category == b.category && r.user == b.user
    ensures r.createdAt == b.createdAt && r.updatedAt == b.updatedAt
  {
    var b1 := b.(name := input.name, author := input.author, publicDate := input.publicDate,
                 description := input.description);
    if input.image != "" then b1.(image := input.image) else b1
  }

  /** Applying the same update twice gives the record of applying it once. */
  lemma MergeBookIdempotent(b: Book, input: UpdateBook)
    ensures MergeBook(MergeBook(b, input), input) == MergeBook(b, input)
  {
  }

  /** The category id and the id the input carries play no part in the merge. */
  lemma MergeBookIgnoresCategoryID(b: Book, input: UpdateBook, categoryID: nat, id: nat)
    ensures MergeBook(b, input.(categoryID := categoryID, id := id)) == MergeBook(b, input)
  {
  }

  /** Every element of `responses` is the projection of the book at the same position. */
  predicate ProjectsBooks(responses: seq<BookResponse>, books: seq<Book>)
  {
    |responses| == |books| && forall i :: 0 <= i < |books| ==> responses[i] == FilterBookRecord(books[i])
  }

  class BookUseCase {
    const bookRepo: BookRepo

    constructor (bookRepo: BookRepo)
      ensures this.bookRepo == bookRepo
    {
      this.bookRepo := bookRepo;
    }

    /** Creation: the stored book takes its fields from the input and its owner from
        the caller's id, never from the input; a repository error is returned as is. */
    method CreateBook(input: BookInput, userID: nat) returns (r: Result<BookResponse>)
      requires bookRepo.Valid()
      modifies bookRepo
      ensures bookRepo.Valid() && bookRepo.faults == old(bookRepo.faults)
      ensures old(bookRepo.Fault(CreateOp)).Some? ==>
                r == Err(old(bookRepo.Fault(CreateOp)).value) && unchanged(bookRepo)
      ensures old(bookRepo.Fault(CreateOp)).None? ==>
                var id := old(bookRepo.nextID);
                && id !in old(bookRepo.rows) && id in bookRepo.rows
                && bookRepo.rows == old(bookRepo.rows)[id := bookRepo.rows[id]]
                && var stored := bookRepo.rows[id];
                && stored.id == id && stored.userID == userID
                && stored.name == input.name && stored.image == input.image && stored.author == input.author
                && stored.categoryID == input.categoryID && stored.publicDate == input.publicDate
                && stored.description == input.description
                && r == Ok(FilterBookRecord(stored))
                && bookRepo.writes == old(bookRepo.writes) + [Created(stored)]
                && bookRepo.nextID == id + 1
    {
      var book := Book(0, 0, 0, input.name, input.image, input.author, input.publicDate, input.description,
                       input.categoryID, ZeroCategory, userID, ZeroUser);
      var createBook := bookRepo.Create(book);
      if createBook.Err? {
        return Err(createBook.error);
      }
      return Ok(FilterBookRecord(createBook.value));
    }

    /** Every stored book, projected one by one in the repository's order. */
    method GetAllBooks() returns (r: Result<seq<BookResponse>>)
      requires bookRepo.Valid()
      ensures bookRepo.FindAll().Err? ==> r == Err(bookRepo.FindAll().error)
      ensures bookRepo.FindAll().Ok? ==> r.Ok? && ProjectsBooks(r.value, bookRepo.FindAll().value)
      ensures r.Ok? ==> forall id | id in bookRepo.rows :: FilterBookRecord(bookRepo.rows[id]) in r.value
    {
      var books := bookRepo.FindAll();
      if books.Err? {
        return Err(books.error);
      }
      var bookResponses: seq<BookResponse> := [];
      for i := 0 to |books.value|
        invariant |bookResponses| == i
        invariant forall j :: 0 <= j < i ==> bookResponses[j] == FilterBookRecord(books.value[j])
      {
        bookResponses := bookResponses + [FilterBookRecord(books.value[i])];
      }
      ProjectionsCover(bookResponses, books.value);
      forall id | id in bookRepo.rows ensures FilterBookRecord(bookRepo.rows[id]) in bookResponses {
        assert bookRepo.rows[id] in books.value;
      }
      return Ok(bookResponses);
    }

    /** The caller's books, projected in the repository's order: exactly the stored
        books owned by `userID`. */
    method GetBooks(userID: nat) returns (r: Result<seq<BookResponse>>)
      requires bookRepo.Valid()
      ensures bookRepo.FindByUserID(userID).Err? ==> r == Err(bookRepo.FindByUserID(userID).error)
      ensures bookRepo.FindByUserID(userID).Ok? ==>
                r.Ok? && ProjectsBooks(r.value, bookRepo.FindByUserID(userID).value)
      ensures r.Ok? ==> forall i :: 0 <= i < |r.value| ==> r.value[i].userID == userID
      ensures r.Ok? ==> forall id | id in bookRepo.rows && bookRepo.rows[id].userID == userID ::
                          FilterBookRecord(bookRepo.rows[id]) in r.value
    {
      var books := bookRepo.FindByUserID(userID);
      if books.Err? {
        return Err(books.error);
      }
      var bookResponses: seq<BookResponse> := [];
      for i := 0 to |books.value|
        invariant |bookResponses| == i
        invariant forall j :: 0 <= j < i ==> bookResponses[j] == FilterBookRecord(books.value[j])
      {
        bookResponses := bookResponses + [FilterBookRecord(books.value[i])];
      }
      OwnedProjections(bookResponses, books.value, bookRepo.rows, userID);
      return Ok(bookResponses);
    }

    /** One book by id, projected; repository errors pass through. */
    function GetBook(bookID: nat): (r: Result<BookResponse>)
      reads bookRepo
      ensures bookRepo.Fault(FindByIDOp).Some? ==> r == Err(bookRepo.Fault(FindByIDOp).value)
      ensures bookRepo.FindByID(bookID).Err? ==> r == Err(bookRepo.FindByID(bookID).error)
      ensures bookRepo.Fault(FindByIDOp).None? ==> (r.Ok? <==> bookID in bookRepo.rows)
      ensures r.Ok? ==> r.value == FilterBookRecord(bookRepo.rows[bookID])
    {
      match bookRepo.FindByID(bookID)
      case Err(e) => Err(e)
      case Ok(book) => Ok(FilterBookRecord(book))
    }

    /** The outcome of an update: the lookup error, the save error, or the merged
        record stored under the id the input names. */
    function UpdateOutcome(input: UpdateBook): (r: Result<Book>)
      requires bookRepo.Valid()
      reads bookRepo
      ensures bookRepo.FindByID(input.id).Err? ==> r == Err(bookRepo.FindByID(input.id).error)
      ensures bookRepo.FindByID(input.id).Ok? && bookRepo.Fault(UpdateOp).Some?
              ==> r == Err(bookRepo.Fault(UpdateOp).value)
      ensures bookRepo.FindByID(input.id).Ok? && bookRepo.Fault(UpdateOp).None?
              ==> r == Ok(MergeBook(bookRepo.FindByID(input.id).value, input))
      ensures r.Ok? ==> r.value == MergeBook(bookRepo.rows[input.id], input) && r.value.id == input.id
    {
      match bookRepo.FindByID(input.id)
      case Err(e) => Err(e)
      case Ok(book) =>
        if bookRepo.Fault(UpdateOp).Some? then Err(bookRepo.Fault(UpdateOp).value)
        else Ok(MergeBook(book, input))
    }

    /** Update: nothing is written when the lookup or the save fails; otherwise the
        merged record replaces the stored one and its projection is returned. */
    method UpdateBook(input: UpdateBook) returns (r: Result<BookResponse>)
      requires bookRepo.Valid()
      modifies bookRepo
      ensures bookRepo.Valid() && bookRepo.faults == old(bookRepo.faults)
      ensures var outcome := old(UpdateOutcome(input));
        && (outcome.Err? ==> r == Err(outcome.error) && unchanged(bookRepo))
        && (outcome.Ok? ==>
              && r == Ok(FilterBookRecord(outcome.value))
              && bookRepo.rows == old(bookRepo.rows)[input.id := outcome.value]
              && bookRepo.writes == old(bookRepo.writes) + [Saved(outcome.value)]
              && bookRepo.nextID == old(bookRepo.nextID))
    {
      var found := bookRepo.FindByID(input.id);
      if found.Err? {
        return Err(found.error);
      }
      var book := found.value;
      book := book.(name := input.name);
      book := book.(author := input.author);
      book := book.(publicDate := input.publicDate);
      book := book.(description := input.description);
      if input.image != "" {
        book := book.(image := input.image);
      }
      assert book == MergeBook(found.value, input);
      var updatedBook := bookRepo.Update(book);
      if updatedBook.Err? {
        return Err(updatedBook.error);
      }
      return Ok(FilterBookRecord(updatedBook.value));
    }

    /** Deletion returns exactly the repository's error, or none. */
    method DeleteBook(bookID: nat) returns (err: Option<string>)
      requires bookRepo.Valid()
      modifies bookRepo
      ensures bookRepo.Valid() && bookRepo.faults == old(bookRepo.faults)
      ensures err == old(bookRepo.Fault(DeleteOp))
      ensures err.Some? ==> unchanged(bookRepo)
      ensures err.None? ==> bookRepo.rows == old(bookRepo.rows) - {bookID}
                            && bookRepo.writes == old(bookRepo.writes) + [Deleted(bookID)]
                            && bookRepo.nextID == old(bookRepo.nextID)
    {
      err := bookRepo.Delete(bookID);
    }
  }

  /** A projection of a list holds the projection of every book in the list. */
  lemma ProjectionsCover(responses: seq<BookResponse>, books: seq<Book>)
    requires ProjectsBooks(responses, books)
    ensures forall b | b in books :: FilterBookRecord(b) in responses
  {
    forall b | b in books ensures FilterBookRecord(b) in responses {
      var k :| 0 <= k < |books| && books[k] == b;
      assert responses[k] == FilterBookRecord(b);
    }
  }

  /** The projection of a user's books keeps the owner, and holds the projection of
      every stored book of that owner when the books are all of them. */
  lemma OwnedProjections(responses: seq<BookResponse>, books: seq<Book>, rows: map<nat, Book>, userID: nat)
    requires ProjectsBooks(responses, books)
    requires forall i :: 0 <= i < |books| ==> books[i].userID == userID
    requires forall id | id in rows && rows[id].userID == userID :: rows[id] in books
    ensures forall i :: 0 <= i < |responses| ==> responses[i].userID == userID
    ensures forall id | id in rows && rows[id].userID == userID :: FilterBookRecord(rows[id]) in responses
  {
    ProjectionsCover(responses, books);
  }
}
