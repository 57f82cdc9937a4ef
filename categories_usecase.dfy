/** The book category use cases: creation owned by the caller, listings, lookup, the
    overwriting update and deletion over the book category repository. */
module CategoriesUsecase {
  import opened Wrappers
  import opened Models
  import opened CategoriesRepository

  /** The update of a category: name and description are always overwritten, even with
      empty values; the image only when the input gives one; the id, the owner and the
      timestamps are kept. */
  function MergeBookCategory(c: BookCategory, input: UpdateBookCategory): (r: BookCategory)
    ensures r.name == input.name && r.description == input.description
    ensures r.image == (if input.image != "" then input.image else c.image)
    ensures r.id == c.id && r.userID == c.userID && r.user == c.user && r.books == c.books
    ensures r.createdAt == c.createdAt && r.updatedAt == c.updatedAt
  {
    var c1 := c.(name := input.name, description := input.description);
    if input.image != "" then c1.(image := input.image) else c1
  }

  /** Applying the same update twice gives the record of applying it once. */
  lemma MergeBookCategoryIdempotent(c: BookCategory, input: UpdateBookCategory)
    ensures MergeBookCategory(MergeBookCategory(c, input), input) == MergeBookCategory(c, input)
  {
  }

  /** Every element of `responses` is the projection of the category at the same position. */
  predicate ProjectsCategories(responses: seq<BookCategoryResponse>, categories: seq<BookCategory>)
  {
    && |responses| == |categories|
    && forall i :: 0 <= i < |categories| ==> responses[i] == FilterBookCategoryRecord(categories[i])
  }

  /** A projection of a list holds the projection of every category in the list. */
  lemma ProjectionsCover(responses: seq<BookCategoryResponse>, categories: seq<BookCategory>)
    requires ProjectsCategories(responses, categories)
    ensures forall c | c in categories :: FilterBookCategoryRecord(c) in responses
  {
    forall c | c in categories ensures FilterBookCategoryRecord(c) in responses {
      var k :| 0 <= k < |categories| && categories[k] == c;
      assert responses[k] == FilterBookCategoryRecord(c);
    }
  }

  class BookCategoryUseCase {
    const bookCategoryRepo: BookCategoryRepo

    constructor (bookCategoryRepo: BookCategoryRepo)
      ensures this.bookCategoryRepo == bookCategoryRepo
    {
      this.bookCategoryRepo := bookCategoryRepo;
    }

    /** Creation: the stored category takes its fields from the input and its owner
        from the caller's id; a repository error is returned as is. */
    method CreateBookCategory(input: BookCategoryInput, userID: nat) returns (r: Result<BookCategoryResponse>)
      requires bookCategoryRepo.Valid()
      modifies bookCategoryRepo
      ensures bookCategoryRepo.Valid() && bookCategoryRepo.faults == old(bookCategoryRepo.faults)
      ensures old(bookCategoryRepo.Fault(CreateOp)).Some? ==>
                r == Err(old(bookCategoryRepo.Fault(CreateOp)).value) && unchanged(bookCategoryRepo)
      ensures old(bookCategoryRepo.Fault(CreateOp)).None? ==>
                var id := old(bookCategoryRepo.nextID);
                && id !in old(bookCategoryRepo.rows) && id in bookCategoryRepo.rows
                && bookCategoryRepo.rows == old(bookCategoryRepo.rows)[id := bookCategoryRepo.rows[id]]
                && var stored := bookCategoryRepo.rows[id];
                && stored.id == id && stored.userID == userID
                && stored.name == input.name && stored.image == input.image
                && stored.description == input.description
                && r == Ok(FilterBookCategoryRecord(stored))
                && bookCategoryRepo.writes == old(bookCategoryRepo.writes) + [Created(stored)]
                && bookCategoryRepo.nextID == id + 1
    {
      var bookCategory := BookCategory(0, 0, 0, input.name, input.image, input.description, [], userID, ZeroUser);
      var createBookCategory := bookCategoryRepo.Create(bookCategory);
      if createBookCategory.Err? {
        return Err(createBookCategory.error);
      }
      return Ok(FilterBookCategoryRecord(createBookCategory.value));
    }

    /** The caller's categories, projected in the repository's order: exactly the
        stored categories owned by `userID`. */
    method GetBookCategories(userID: nat) returns (r: Result<seq<BookCategoryResponse>>)
      requires bookCategoryRepo.Valid()
      ensures bookCategoryRepo.FindByUserID(userID).Err? ==>
                r == Err(bookCategoryRepo.FindByUserID(userID).error)
      ensures bookCategoryRepo.FindByUserID(userID).Ok? ==>
                r.Ok? && ProjectsCategories(r.value, bookCategoryRepo.FindByUserID(userID).value)
      ensures r.Ok? ==> forall id | id in bookCategoryRepo.rows && bookCategoryRepo.rows[id].userID == userID ::
                          FilterBookCategoryRecord(bookCategoryRepo.rows[id]) in r.value
    {
      var bookCategories := bookCategoryRepo.FindByUserID(userID);
      if bookCategories.Err? {
        return Err(bookCategories.error);
      }
      var bookCategoryResponses: seq<BookCategoryResponse> := [];
      for i := 0 to |bookCategories.value|
        invariant |bookCategoryResponses| == i
        invariant forall j :: 0 <= j < i ==> bookCategoryResponses[j] == FilterBookCategoryRecord(bookCategories.value[j])
      {
        bookCategoryResponses := bookCategoryResponses + [FilterBookCategoryRecord(bookCategories.value[i])];
      }
      ProjectionsCover(bookCategoryResponses, bookCategories.value);
      forall id | id in bookCategoryRepo.rows && bookCategoryRepo.rows[id].userID == userID ensures FilterBookCategoryRecord(bookCategoryRepo.rows[id]) in bookCategoryResponses {
        assert bookCategoryRepo.rows[id] in bookCategories.value;
      }
      return Ok(bookCategoryResponses);
    }

    /** Every stored category, projected one by one in the repository's order. */
    method GetAllBookCategories() returns (r: Result<seq<BookCategoryResponse>>)
      requires bookCategoryRepo.Valid()
      ensures bookCategoryRepo.FindAll().Err? ==> r == Err(bookCategoryRepo.FindAll().error)
      ensures bookCategoryRepo.FindAll().Ok? ==>
                r.Ok? && ProjectsCategories(r.value, bookCategoryRepo.FindAll().value)
      ensures r.Ok? ==> forall id | id in bookCategoryRepo.rows ::
                          FilterBookCategoryRecord(bookCategoryRepo.rows[id]) in r.value
    {
      var bookCategories := bookCategoryRepo.FindAll();
      if bookCategories.Err? {
        return Err(bookCategories.error);
      }
      var bookCategoryResponses: seq<BookCategoryResponse> := [];
      for i := 0 to |bookCategories.value|
        invariant |bookCategoryResponses| == i
        invariant forall j :: 0 <= j < i ==> bookCategoryResponses[j] == FilterBookCategoryRecord(bookCategories.value[j])
      {
        bookCategoryResponses := bookCategoryResponses + [FilterBookCategoryRecord(bookCategories.value[i])];
      }
      ProjectionsCover(bookCategoryResponses, bookCategories.value);
      forall id | id in bookCategoryRepo.rows ensures FilterBookCategoryRecord(bookCategoryRepo.rows[id]) in bookCategoryResponses {
        assert bookCategoryRepo.rows[id] in bookCategories.value;
      }
      return Ok(bookCategoryResponses);
    }

    /** The outcome of an update: the lookup error, the save error, or the merged
        record stored under the id the input names. No caller id is involved. */
    function UpdateOutcome(input: UpdateBookCategory): (r: Result<BookCategory>)
      requires bookCategoryRepo.Valid()
      reads bookCategoryRepo
      ensures bookCategoryRepo.FindByID(input.id).Err? ==> r == Err(bookCategoryRepo.FindByID(input.id).error)
      ensures bookCategoryRepo.FindByID(input.id).Ok? && bookCategoryRepo.Fault(UpdateOp).Some?
              ==> r == Err(bookCategoryRepo.Fault(UpdateOp).value)
      ensures bookCategoryRepo.FindByID(input.id).Ok? && bookCategoryRepo.Fault(UpdateOp).None?
              ==> r == Ok(MergeBookCategory(bookCategoryRepo.FindByID(input.id).value, input))
      ensures r.Ok? ==> r.value == MergeBookCategory(bookCategoryRepo.rows[input.id], input)
                        && r.value.id == input.id
    {
      match bookCategoryRepo.FindByID(input.id)
      case Err(e) => Err(e)
      case Ok(bookCategory) =>
        if bookCategoryRepo.Fault(UpdateOp).Some? then Err(bookCategoryRepo.Fault(UpdateOp).value)
        else Ok(MergeBookCategory(bookCategory, input))
    }

    /** Update: nothing is written when the lookup or the save fails; otherwise the
        merged record replaces the stored one, whoever owns it, and its projection is
        returned. */
    method UpdateBookCategory(input: UpdateBookCategory) returns (r: Result<BookCategoryResponse>)
      requires bookCategoryRepo.Valid()
      modifies bookCategoryRepo
      ensures bookCategoryRepo.Valid() && bookCategoryRepo.faults == old(bookCategoryRepo.faults)
      ensures var outcome := old(UpdateOutcome(input));
        && (outcome.Err? ==> r == Err(outcome.error) && unchanged(bookCategoryRepo))
        && (outcome.Ok? ==>
              && r == Ok(FilterBookCategoryRecord(outcome.value))
              && bookCategoryRepo.rows == old(bookCategoryRepo.rows)[input.id := outcome.value]
              && bookCategoryRepo.writes == old(bookCategoryRepo.writes) + [Saved(outcome.value)]
              && bookCategoryRepo.nextID == old(bookCategoryRepo.nextID))
    {
      var found := bookCategoryRepo.FindByID(input.id);
      if found.Err? {
        return Err(found.error);
      }
      var bookCategory := found.value;
      bookCategory := bookCategory.(name := input.name);
      bookCategory := bookCategory.(description := input.description);
      if input.image != "" {
        bookCategory := bookCategory.(image := input.image);
      }
      assert bookCategory == MergeBookCategory(found.value, input);
      var updatedBookCategory := bookCategoryRepo.Update(bookCategory);
      if updatedBookCategory.Err? {
        return Err(updatedBookCategory.error);
      }
      return Ok(FilterBookCategoryRecord(updatedBookCategory.value));
    }

    /** Deletion returns exactly the repository's error, or none. */
    method DeleteBookCategory(bookCategoryID: nat) returns (err: Option<string>)
      requires bookCategoryRepo.Valid()
      modifies bookCategoryRepo
      ensures bookCategoryRepo.Valid() && bookCategoryRepo.faults == old(bookCategoryRepo.faults)
      ensures err == old(bookCategoryRepo.Fault(DeleteOp))
      ensures err.Some? ==> unchanged(bookCategoryRepo)
      ensures err.None? ==> bookCategoryRepo.rows == old(bookCategoryRepo.rows) - {bookCategoryID}
                            && bookCategoryRepo.writes == old(bookCategoryRepo.writes) + [Deleted(bookCategoryID)]
                            && bookCategoryRepo.nextID == old(bookCategoryRepo.nextID)
    {
      err := bookCategoryRepo.Delete(bookCategoryID);
    }

    /** One category by id, projected; repository errors pass through. */
    function GetBookCategory(bookCategoryID: nat): (r: Result<BookCategoryResponse>)
      reads bookCategoryRepo
      ensures bookCategoryRepo.Fault(FindByIDOp).Some? ==> r == Err(bookCategoryRepo.Fault(FindByIDOp).value)
      ensures bookCategoryRepo.FindByID(bookCategoryID).Err? ==> r == Err(bookCategoryRepo.FindByID(bookCategoryID).error)
      ensures bookCategoryRepo.Fault(FindByIDOp).None? ==> (r.Ok? <==> bookCategoryID in bookCategoryRepo.rows)
      ensures r.Ok? ==> r.value == FilterBookCategoryRecord(bookCategoryRepo.rows[bookCategoryID])
    {
      match bookCategoryRepo.FindByID(bookCategoryID)
      case Err(e) => Err(e)
      case Ok(bookCategory) => Ok(FilterBookCategoryRecord(bookCategory))
    }
  }
}
