/** The three stored entities, their request inputs and their response projections.
    Times are Unix seconds; `gorm.Model` contributes ID, CreatedAt and UpdatedAt. */
module Models {

  type Time = int

  /** A stored user. `password` holds the bcrypt hash; `books` and `bookCategories`
      are the has-many associations keyed by UserID. */
  datatype User = User(
    id: nat, createdAt: Time, updatedAt: Time,
    name: string, email: string, password: string, image: string,
    books: seq<Book>, bookCategories: seq<BookCategory>)

  /** A stored book with its belongs-to associations `category` and `user`. */
  datatype Book = Book(
    id: nat, createdAt: Time, updatedAt: Time,
    name: string, image: string, author: string, publicDate: Time, description: string,
    categoryID: nat, category: BookCategory, userID: nat, user: User)

  /** A stored book category, owned by `userID`, with its books. */
  datatype BookCategory = BookCategory(
    id: nat, createdAt: Time, updatedAt: Time,
    name: string, image: string, description: string,
    books: seq<Book>, userID: nat, user: User)

  /** The zero values Go gives the association fields of a freshly built record. */
  const ZeroUser := User(0, 0, 0, "", "", "", "", [], [])
  const ZeroCategory := BookCategory(0, 0, 0, "", "", "", [], 0, ZeroUser)

  datatype SignUpInput = SignUpInput(name: string, email: string, password: string, passwordConfirm: string)
  datatype SignInInput = SignInInput(email: string, password: string)
  datatype UserUpdateInput = UserUpdateInput(name: string, email: string, image: string)

  datatype BookInput = BookInput(
    name: string, image: string, author: string, categoryID: nat, publicDate: Time, description: string)
  datatype UpdateBook = UpdateBook(
    id: nat, name: string, image: string, author: string, categoryID: nat, publicDate: Time,
    description: string)

  datatype BookCategoryInput = BookCategoryInput(name: string, image: string, description: string)
  datatype UpdateBookCategory = UpdateBookCategory(id: nat, name: string, image: string, description: string)

  /** What leaves the system about a user: no password, no associations. */
  datatype UserResponse = UserResponse(
    id: nat, name: string, email: string, image: string, createdAt: Time, updatedAt: Time)

  /** What leaves the system about a book: no associations. */
  datatype BookResponse = BookResponse(
    id: nat, name: string, author: string, categoryID: nat, userID: nat, description: string,
    image: string, publicDate: Time, createdAt: Time, updatedAt: Time)

  /** What leaves the system about a category: no owner, no associations. */
  datatype BookCategoryResponse = BookCategoryResponse(
    id: nat, name: string, description: string, image: string, createdAt: Time, updatedAt: Time)

  /** The entities that have a table, for `TableName`. */
  datatype Entity = UserEntity | BookEntity | BookCategoryEntity

  /** `TableName` of each entity. */
  function TableName(e: Entity): (name: string)
    ensures name != ""
    ensures e.UserEntity? ==> name == "users"
    ensures e.BookEntity? ==> name == "books"
    ensures e.BookCategoryEntity? ==> name == "book_categories"
  {
    match e
    case UserEntity => "users"
    case BookEntity => "books"
    case BookCategoryEntity => "book_categories"
  }

  /** The user projection: it keeps exactly the identity, the public profile fields
      and the timestamps. */
  function FilterUserRecord(u: User): (r: UserResponse)
    ensures r.id == u.id && r.name == u.name && r.email == u.email && r.image == u.image
    ensures r.createdAt == u.createdAt && r.updatedAt == u.updatedAt
  {
    UserResponse(u.id, u.name, u.email, u.image, u.createdAt, u.updatedAt)
  }

  /** The projection does not depend on the password hash nor on the associations:
      two users that differ only there project to the same response. */
  lemma FilterUserRecordHidesSecrets(u: User, password: string, books: seq<Book>, cats: seq<BookCategory>)
    ensures FilterUserRecord(u.(password := password, books := books, bookCategories := cats))
         == FilterUserRecord(u)
  {
  }

  /** Two users project alike exactly when they agree on the copied fields. */
  lemma FilterUserRecordKernel(u: User, v: User)
    ensures FilterUserRecord(u) == FilterUserRecord(v)
        <==> (u.id == v.id && u.name == v.name && u.email == v.email && u.image == v.image
              && u.createdAt == v.createdAt && u.updatedAt == v.updatedAt)
  {
  }

  /** The book projection: every scalar column, none of the associations. */
  function FilterBookRecord(b: Book): (r: BookResponse)
    ensures r.id == b.id && r.name == b.name && r.author == b.author
    ensures r.categoryID == b.categoryID && r.userID == b.userID
    ensures r.publicDate == b.publicDate && r.description == b.description && r.image == b.image
    ensures r.createdAt == b.createdAt && r.updatedAt == b.updatedAt
  {
    BookResponse(b.id, b.name, b.author, b.categoryID, b.userID, b.description, b.image,
                 b.publicDate, b.createdAt, b.updatedAt)
  }

  /** The category and user associations of a book never reach its projection. */
  lemma FilterBookRecordHidesAssociations(b: Book, category: BookCategory, user: User)
    ensures FilterBookRecord(b.(category := category, user := user)) == FilterBookRecord(b)
  {
  }

  /** The category projection: identity, name, description, image and timestamps. */
  function FilterBookCategoryRecord(c: BookCategory): (r: BookCategoryResponse)
    ensures r.id == c.id && r.name == c.name && r.description == c.description && r.image == c.image
    ensures r.createdAt == c.createdAt && r.updatedAt == c.updatedAt
  {
    BookCategoryResponse(c.id, c.name, c.description, c.image, c.createdAt, c.updatedAt)
  }

  /** The owner and the associations of a category never reach its projection. */
  lemma FilterBookCategoryRecordHidesOwner(c: BookCategory, userID: nat, books: seq<Book>, user: User)
    ensures FilterBookCategoryRecord(c.(userID := userID, books := books, user := user))
         == FilterBookCategoryRecord(c)
  {
  }
}
