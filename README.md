# Book catalogue backend: authentication gate, user handlers, use cases and projections

This project models the core of a small layered REST backend written in Go with gin and
gorm. Users sign up, log in and get a JSON Web Token. With that token they manage their
profile, their books and their book categories.

The model covers four parts:

- **The authentication gate** (`Middleware`). This is the middleware in front of every
  protected route.
  - It reads the `Authorization` header and splits it on a single blank. It verifies
    only the second piece, through the JWT library, with an HMAC-only key function.
  - It either answers 401 with a specific message and aborts, or stores `userID` and
    `claims` in the request context and calls the next handler.
  - `GetUserID` is the typed accessor for what the gate stored.
  - The header shape is a loose form of section 2.1 of RFC 6750: the scheme word is
    never compared with "Bearer".
- **The user handlers** (`UsersHandlers`).
  - Login builds the claims `{id, email, exp = now + 72h}` (`exp` as in section 4.1.4
    of RFC 7519) and signs them with HS256 (section 3.2 of RFC 7518).
  - The protected handlers repeat a three-step claims-to-id guard.
  - Logout trims the header and strips one `"Bearer "`.
  - Every handler maps outcomes to status codes.
- **The use cases** for users, books and book categories (`UsersUsecase`,
  `BooksUsecase`, `CategoriesUsecase`).
  - Sign-up guards and their order.
  - The login error mapping.
  - The per-entity partial-update merges.
  - The owner taken from the authenticated caller on creation.
  - Listings that keep length and order.
- **The record projections** (`Models.Filter*Record`). These decide what leaves the
  system. The password hash, the associations and the category owner never do.

The pieces around the core are modelled just far enough for the core's contracts to be
stated:

- **Repositories** are in-memory tables (`UsersRepository`, `BooksRepository`,
  `CategoriesRepository`).
  - Each is a class holding `rows: map<nat, Record>`, the next id to allocate, a map of
    injected faults (so every error path is reachable) and a log of the writes made.
  - Lookups are functions over the rows. Writes are methods with `modifies`.
- **The gin request context** (`Gin.Context`) is a class. It holds the header, the
  key/value store, the responses written, the abort flag and the count of calls to the
  next handler.
- **The JWT library** (`Jwt.Library`) and **bcrypt** (`Bcrypt.Hasher`) are values made
  of functions. What the code relies on about them is stated as hypotheses:
  - `Jwt.RoundTrips`: a token signed with HS256 decodes to its claims and verifies with
    the same key until it expires;
  - `Bcrypt.Sound`: a generated hash matches its password.
- **Go's `strings.Split`, `strings.TrimSpace` and `strings.TrimPrefix`** are written
  out in `GoStrings`, with their own properties proved: `Join` inverts `Split`, and
  trimming is idempotent.

Time is passed in as `now` (Unix seconds). Uploading an image is a function parameter
`upload`.

## Model

| member | source | states |
|---|---|---|
| Middleware.AuthMiddleware | app/middleware/jwt_auth_middleware.go:12-63 | A request is a `Decision` (`Authenticate`) and that decides everything. Exactly on acceptance are `userID` then `claims` stored and `Next` called once. Every rejection writes one 401 with the decision's message and aborts. Stored values are left alone and `Next` is not called. |
| Middleware.Authenticate | app/middleware/jwt_auth_middleware.go:14-28 | An empty header is rejected with "Authorization header is required". A header without exactly one blank is rejected with "Invalid token format". A header with exactly one blank gets the verdict on its second piece (`CheckToken`), so an accepted identity and claims are those of that token. |
| Middleware.CheckToken | app/middleware/jwt_auth_middleware.go:30-61 | The token is accepted iff parsing yields valid map claims with a numeric `id`. The accepted claims are then exactly the parsed token's claims, and the identity is their `id`. Each rejection has its message: `ErrSignatureInvalid` gives "Invalid signature"; any other parse error gives its own text; valid map claims without a numeric `id` give "Invalid user ID in token"; claims that are not a map, or a token not valid, give "Invalid token". |
| Middleware.KeyFor | app/middleware/jwt_auth_middleware.go:30-35 | The secret is handed out iff the method is HMAC. Any other method gets `ErrSignatureInvalid` and no key. |
| Middleware.GetUserID | app/middleware/jwt_auth_middleware.go:66-76 | A missing `userID` gives `(0, "user ID not found in context")`. A non-uint gives `(0, "user ID is not a valid uint")`. Success happens iff a uint is stored, and returns it. |
| Middleware.SchemeIgnored | app/middleware/jwt_auth_middleware.go:21-28 | For any blank-free first word, the verdict on `word + " " + token` is the verdict on the token alone. The scheme is never checked. |
| Middleware.FormatCheck | app/middleware/jwt_auth_middleware.go:21-28 | The format check passes only with exactly one blank. The header is then the first piece, a blank and the second piece, and only the second piece is verified. |
| Middleware.NonHmacRejected | app/middleware/jwt_auth_middleware.go:30-45 | A token naming a non-HMAC method is always rejected. It reads "Invalid signature" when the library passes the key function's error through unwrapped. |
| Middleware.GetUserIDAfterAccept | app/middleware/jwt_auth_middleware.go:54-57 | After the gate stores an identity, `GetUserID` returns exactly that identity, whatever the context held before. |
| Jwt.Parse | app/middleware/jwt_auth_middleware.go:30-35 | A malformed token fails with its message. A key function error fails with the library's report of that error (`keyFailure`). When the key function answers a key for the method the token names, the result is exactly the verification with that key. |
| UsersHandlers.LoginClaims | app/modules/users/handlers/handler.go:57-61 | The login claims are exactly `id`, `email` and `exp = now + 72*3600`. |
| UsersHandlers.LoginClaimsLifetime | app/modules/users/handlers/handler.go:60 | A login token is unexpired exactly during the 72 hours after it is issued. |
| UsersHandlers.LoginTokenAuthenticates | app/modules/users/handlers/handler.go:57-63 | A token that login signs, presented behind any one-word scheme before it expires, is accepted by the gate configured at app/server/router.go:26. The identity is `user.ID` and the claims are the login claims: the two keys are the same string. |
| UsersHandlers.ClaimsUserID | app/modules/users/handlers/handler.go:75-91 | The guard fails in this order: no claims give "No claims found in context", claims of another type give "Invalid token claims", map claims without a numeric `id` give "Invalid user ID in token". It succeeds iff the stored claims are a map with a numeric `id`, returning that `id`. |
| UsersHandlers.GateAndGuardAgree | app/modules/users/handlers/handler.go:75-93 | After the gate accepts, both the handlers' guard and `GetUserID` read back the identity the gate stored. |
| UsersHandlers.WithUploadedImage | app/modules/users/handlers/handler.go:153-161 | Without a file the input is kept. A failed upload is an error. A successful upload replaces only the image, with the URL. |
| UsersHandlers.LogoutStripsOneBearer | app/modules/users/handlers/handler.go:103-111 | The header `"Bearer " + t` logs out exactly `t` (for `t` ending in a non-blank), even when `t` itself starts with "Bearer ". |
| UsersHandlers.LogoutKeepsOtherSchemes | app/modules/users/handlers/handler.go:103-109 | Any header whose trimmed form does not start with "Bearer " is logged out as the trimmed form; the prefix is case-sensitive, so "bearer abc" is logged out as it is. |
| UsersHandlers.UserHandlers.SignUpUser | app/modules/users/handlers/handler.go:25-40 | A bind failure is a 400 with nothing written. A sign-up error is a 400 with its text and nothing written. Success is a 201 with the projection of the one new row. Success also logs one create and advances the next id by one. |
| UsersHandlers.UserHandlers.LoginUser | app/modules/users/handlers/handler.go:43-72 | A bind failure is a 400. A use-case error is a 401 with its text. A signing failure is a 500 "could not generate token". Otherwise it is a 200 with the HS256 token over the login claims. |
| UsersHandlers.UserHandlers.GetUserProfile | app/modules/users/handlers/handler.go:74-100 | Guard failures are 401s and the use case is not consulted. A use-case error is a 500 with its text. Otherwise it is a 200 with the profile. |
| UsersHandlers.UserHandlers.LogoutUser | app/modules/users/handlers/handler.go:102-114 | A header that trims to nothing is a 401 "No token provided". Otherwise it is a 200 "Logout successful", logging the trimmed header minus one "Bearer ", with no state changed. |
| UsersHandlers.UserHandlers.UpdateUser | app/modules/users/handlers/handler.go:116-170 | Guard failures are 401s and a bind failure is a 400, with nothing written. A failed upload is a 500 with nothing written. A use-case failure is a 500 "Failed to update user" with nothing written. Otherwise the merged record is stored and returned. Success logs one save and leaves the next id unchanged. |
| UsersHandlers.UserHandlers.DeleteUser | app/modules/users/handlers/handler.go:172-198 | Guard failures are 401s with nothing deleted. A repository error is a 500 "Failed to delete user" with nothing deleted. Otherwise the caller's row is gone and the response is a 200. Success logs one delete and leaves the next id unchanged, so the id is not handed out again. |
| UsersUsecase.MergeUser | app/modules/users/usecase/usecase.go:73-81 | Each of name, email and image is replaced iff the input value is non-empty. Id, password, timestamps and associations are kept. |
| UsersUsecase.MergeUserIdempotent | app/modules/users/usecase/usecase.go:73-81 | Applying the same update twice gives the record of applying it once. |
| UsersUsecase.MergeUserEmptyInput | app/modules/users/usecase/usecase.go:73-81 | An all-empty input changes nothing. |
| UsersUsecase.UserUseCase.SignUpOutcome | app/modules/users/usecase/usecase.go:28-43 | A password mismatch wins over an existing email, and only a request passing both reaches the repository's create. |
| UsersUsecase.UserUseCase.SignUpUser | app/modules/users/usecase/usecase.go:28-43 | Every failure leaves the repository untouched. Success adds exactly the created row, logs one create, advances the next id by one and returns its projection. |
| UsersUsecase.UserUseCase.LoginUser | app/modules/users/usecase/usecase.go:45-57 | Any lookup failure reads "user not found". A hash mismatch reads "invalid credentials". A found user whose hash matches is returned, unchanged; any success is that stored user with that email. |
| UsersUsecase.UserUseCase.GetUserProfile | app/modules/users/usecase/usecase.go:59-65 | A lookup error passes through. Otherwise the result is the projection of the stored user. |
| UsersUsecase.UserUseCase.UpdateOutcome | app/modules/users/usecase/usecase.go:67-89 | A lookup error or a save error passes through. A found user with no save error yields `Ok` of the merge of the stored user, under the same id, and any success is that merge. |
| UsersUsecase.UserUseCase.UpdateUser | app/modules/users/usecase/usecase.go:67-89 | A failure writes nothing. Success replaces the row with the merged record, logs one save and returns its projection. The next id is unchanged. |
| UsersUsecase.UserUseCase.DeleteUser | app/modules/users/usecase/usecase.go:91-97 | The result is exactly the repository's error or none. Only on none is the row removed. A delete is logged and the next id is unchanged, so the deleted id is never reused. |
| UsersUsecase.SignUpThenLogIn | app/modules/users/usecase/usecase.go:28-57 | With a sound hasher and no faults, sign-up followed by login with the same credentials succeeds and yields the created user. |
| UsersUsecase.UpdateUserTwice | app/modules/users/usecase/usecase.go:67-89 | Sending the same update twice returns the same profile and leaves the row as one update would. |
| UsersRepository.UserRepo.FirstWithEmail | app/modules/users/repositories/repository.go:64-70 | A found user is the row with the email whose id is the lowest from the start id on; when none is found, no row from the start id on has the email. |
| UsersRepository.UserRepo.GetByEmail | app/modules/users/repositories/repository.go:64-70 | Without a fault, a user is found iff some stored user has the email; the found user is the stored row with that email that has the lowest id, as gorm's `First` orders by primary key. |
| UsersRepository.UserRepo.CheckEmailExisting | app/modules/users/repositories/repository.go:50-62 | The email counts as existing iff some stored user has it. |
| UsersRepository.UserRepo.GetByID | app/modules/users/repositories/repository.go:72-78 | Without a fault, the lookup succeeds iff the id is stored, and returns that row. |
| UsersRepository.UserRepo.Creation | app/modules/users/repositories/repository.go:28-48 | A hashing error is returned first, before the insert can fail; then an insert error. Creation succeeds iff both succeed, and the created user takes the next id, the input's name and email, and the hash of the password. |
| UsersRepository.UserRepo.CreateUser | app/modules/users/repositories/repository.go:28-48 | It performs `Creation`. Success stores the new row and advances the next id. |
| UsersRepository.UserRepo.Update | app/modules/users/repositories/repository.go:80-82 | A save overwrites the row with the record's id, or inserts under a fresh id when that id is zero. The next id moves past the saved id, and one save is logged. |
| UsersRepository.UserRepo.Delete | app/modules/users/repositories/repository.go:84-86 | Unless a fault is injected, the id is removed. A missing id is not an error. One delete is logged and the next id is unchanged, so ids are never recycled. |
| BooksUsecase.MergeBook | app/modules/books/usecase/usecase.go:84-90 | Name, author, publication date and description are always overwritten, even with empty values. The image changes only when the input gives one. Id, category id and owner never change. |
| BooksUsecase.MergeBookIdempotent | app/modules/books/usecase/usecase.go:84-90 | Applying the same update twice gives the record of applying it once. |
| BooksUsecase.MergeBookIgnoresCategoryID | app/modules/books/usecase/usecase.go:84-90 | The category id (and the id) carried by the input play no part in the merge. |
| BooksUsecase.ProjectionsCover | app/modules/books/usecase/usecase.go:50-53 | A positionwise projection of a list contains the projection of every book in the list. |
| BooksUsecase.OwnedProjections | app/modules/books/usecase/usecase.go:57-68 | Projecting a user's books keeps the owner. When those books are all of that owner's stored books, the result holds the projection of each. |
| BooksUsecase.BookUseCase.CreateBook | app/modules/books/usecase/usecase.go:26-42 | A create error is returned with nothing written. Otherwise one new row exists under the next id. It takes its fields from the input and its owner from the caller's id, one create is logged, the next id advances by one, and its projection is returned. |
| BooksUsecase.BookUseCase.GetAllBooks | app/modules/books/usecase/usecase.go:44-55 | A repository error is returned. Otherwise element i is the projection of the repository's book i (same length, same order), and every stored book appears. |
| BooksUsecase.BookUseCase.GetBooks | app/modules/books/usecase/usecase.go:57-68 | The same positionwise projection, over the repository's books for this user only. Every result has that owner, and every stored book of that owner appears. |
| BooksUsecase.BookUseCase.GetBook | app/modules/books/usecase/usecase.go:70-76 | A repository error passes through. Without a fault, the call succeeds iff the id is stored, and returns that book's projection. Every lookup error, including "record not found", is returned as is. |
| BooksUsecase.BookUseCase.UpdateOutcome | app/modules/books/usecase/usecase.go:78-98 | A lookup error passes through (and no save is attempted). So does a save error. A found book with no save error yields `Ok` of the merge of the stored book under the input's id, and any success is that merge. |
| BooksUsecase.BookUseCase.UpdateBook | app/modules/books/usecase/usecase.go:78-98 | A failure writes nothing. Success replaces the row with the merged record, logs one save and returns its projection. The next id is unchanged. |
| BooksUsecase.BookUseCase.DeleteBook | app/modules/books/usecase/usecase.go:100-106 | The result is exactly the repository's error or none. Only on none is the row removed. A delete is logged and the next id is unchanged. |
| BooksRepository.BookRepo.Create | app/modules/books/repositories/repository.go:25-30 | A record with id zero is stored under the next id. A free id is used as given. A taken id is refused. The next id moves past the stored id, and one create is logged. |
| BooksRepository.BookRepo.FindAll | app/modules/books/repositories/repository.go:32-38 | Without a fault it lists stored books only, and all of them. |
| BooksRepository.BookRepo.FindByUserID | app/modules/books/repositories/repository.go:40-46 | It lists stored books of that owner only, and all of them. |
| BooksRepository.BookRepo.FindByID | app/modules/books/repositories/repository.go:48-54 | Without a fault, the lookup succeeds iff the id is stored. A missing id without a fault is "record not found". |
| BooksRepository.BookRepo.Update | app/modules/books/repositories/repository.go:56-61 | A save overwrites the row with the record's id, or inserts the record under a fresh id when its id is zero. The next id moves past the saved id, and one save is logged. |
| BooksRepository.BookRepo.Delete | app/modules/books/repositories/repository.go:63-65 | Unless a fault is injected, the id is removed. One delete is logged and the next id is unchanged. |
| CategoriesUsecase.MergeBookCategory | app/modules/book_category/usecase/usecase.go:72-76 | Name and description are always overwritten. The image changes only when the input gives one. Id and owner never change. |
| CategoriesUsecase.MergeBookCategoryIdempotent | app/modules/book_category/usecase/usecase.go:72-76 | Applying the same update twice gives the record of applying it once. |
| CategoriesUsecase.ProjectionsCover | app/modules/book_category/usecase/usecase.go:46-49 | A positionwise projection of a list contains the projection of every category in it. |
| CategoriesUsecase.BookCategoryUseCase.CreateBookCategory | app/modules/book_category/usecase/usecase.go:26-38 | A create error is returned with nothing written. Otherwise one new row exists under the next id. It takes its fields from the input and its owner from the caller's id, one create is logged and the next id advances by one. |
| CategoriesUsecase.BookCategoryUseCase.GetBookCategories | app/modules/book_category/usecase/usecase.go:40-51 | Element i is the projection of the repository's category i for this user. Every stored category of that owner appears. Errors pass through. |
| CategoriesUsecase.BookCategoryUseCase.GetAllBookCategories | app/modules/book_category/usecase/usecase.go:53-64 | Element i is the projection of the repository's category i. Every stored category appears. Errors pass through. |
| CategoriesUsecase.BookCategoryUseCase.UpdateOutcome | app/modules/book_category/usecase/usecase.go:66-84 | A lookup error or a save error passes through. A found category with no save error yields `Ok` of the merge of the stored category under the input's id, and any success is that merge. No caller id is involved, so there is no ownership check. |
| CategoriesUsecase.BookCategoryUseCase.UpdateBookCategory | app/modules/book_category/usecase/usecase.go:66-84 | A failure writes nothing. Success replaces the row, whoever owns it, with the merged record. One save is logged and the next id is unchanged. |
| CategoriesUsecase.BookCategoryUseCase.DeleteBookCategory | app/modules/book_category/usecase/usecase.go:86-92 | The result is exactly the repository's error or none. Only on none is the row removed. A delete is logged and the next id is unchanged. |
| CategoriesUsecase.BookCategoryUseCase.GetBookCategory | app/modules/book_category/usecase/usecase.go:94-100 | A repository error passes through. Otherwise the result is the stored category's projection. Every lookup error, including "record not found", is returned as is. |
| CategoriesRepository.BookCategoryRepo.Create | app/modules/book_category/repositories/repository.go:25-30 | A record with id zero is stored under the next id. A taken id is refused. The next id moves past the stored id, and one create is logged. |
| CategoriesRepository.BookCategoryRepo.FindByUserID | app/modules/book_category/repositories/repository.go:32-38 | It lists stored categories of that owner only, and all of them. |
| CategoriesRepository.BookCategoryRepo.FindAll | app/modules/book_category/repositories/repository.go:40-46 | It lists stored categories only, and all of them. |
| CategoriesRepository.BookCategoryRepo.FindByID | app/modules/book_category/repositories/repository.go:48-54 | Without a fault, the lookup succeeds iff the id is stored. A missing id without a fault is "record not found". |
| CategoriesRepository.BookCategoryRepo.Update | app/modules/book_category/repositories/repository.go:56-61 | A save overwrites the row with the record's id, or inserts the record under a fresh id when its id is zero. The next id moves past the saved id, and one save is logged. |
| CategoriesRepository.BookCategoryRepo.Delete | app/modules/book_category/repositories/repository.go:63-65 | Unless a fault is injected, the id is removed. One delete is logged and the next id is unchanged. |
| Models.FilterUserRecord | app/models/user.go:63-72 | The user projection copies id, name, email, image and both timestamps unchanged. |
| Models.FilterUserRecordHidesSecrets | app/models/user.go:35-42 | The projection does not depend on the password hash or the associations. |
| Models.FilterUserRecordKernel | app/models/user.go:63-72 | Two users project alike iff they agree on the six copied fields. |
| Models.FilterBookRecord | app/models/book.go:58-71 | The book projection copies every scalar column unchanged. |
| Models.FilterBookRecordHidesAssociations | app/models/book.go:45-56 | The category and user associations never reach the projection. |
| Models.FilterBookCategoryRecord | app/models/book_category.go:45-54 | The category projection copies id, name, description, image and both timestamps. |
| Models.FilterBookCategoryRecordHidesOwner | app/models/book_category.go:36-43 | The owner id and the associations never reach the projection. |
| Models.TableName | app/models/user.go:19-21 | The user table is "users", the book table "books" (app/models/book.go:22-24) and the category table "book_categories" (app/models/book_category.go:19-21). |
| GoStrings.Split | app/middleware/jwt_auth_middleware.go:21 | `strings.Split` on one character gives one more piece than there are separators, and no piece contains the separator. |
| GoStrings.JoinSplit | app/middleware/jwt_auth_middleware.go:21 | Joining the pieces with the separator restores the string. |
| GoStrings.SplitAround | app/middleware/jwt_auth_middleware.go:21-22 | A string with one separator splits into the text before and the text after it. |
| GoStrings.SplitTwo | app/middleware/jwt_auth_middleware.go:22 | Two pieces mean exactly one separator between them. |
| GoStrings.TrimSpace | app/modules/users/handlers/handler.go:103 | The result is a contiguous piece of the original with only white space before and after it, and it begins and ends with a non-space; it is empty iff the original is all white space. |
| GoStrings.TrimSpaceIdempotent | app/modules/users/handlers/handler.go:103 | Trimming twice is trimming once. |
| GoStrings.TrimPrefix | app/modules/users/handlers/handler.go:109 | With the prefix, the prefix followed by the result is the original. Without it, the string is kept. |
| GoStrings.TrimPrefixOnce | app/modules/users/handlers/handler.go:109 | Only one copy of the prefix is removed. |
| Tables.Listing | app/modules/books/repositories/repository.go:32-38 | An unconditioned `Find` lists stored rows only, and every stored row. |
| Tables.Select | app/modules/books/repositories/repository.go:40-46 | A `Where` keeps exactly the elements satisfying the condition. |
| Tables.SelectAppend | app/modules/books/repositories/repository.go:40-46 | Selecting from a concatenation is selecting from each part in turn, so the selection keeps the order of the rows it filters. |

## Left out

- JWT internals: base64url, HMAC and the library's error wrapping are abstract functions (`Jwt.Library`). Whether a wrapped key-function error ever compares equal to `ErrSignatureInvalid` is a parameter (`keyFailure`), not decided.
- bcrypt hashing and comparison are abstract functions (`Bcrypt.Hasher`). Their agreement is the hypothesis `Sound`.
- Middleware.AuthMiddleware: the float64 to uint conversion of the `id` claim is not modelled. Claim numbers are natural numbers, so fractional, negative and huge ids (above 2^53) are not represented.
- UsersHandlers.ClaimsUserID: the same conversion at the handlers' `uint(userID)` is not modelled.
- The clock: `time.Now` is the parameter `now` in Unix seconds. Timestamps that gorm would set on create and save are not modelled, and stay as given.
- The image upload to S3 (app/middleware/handle_upload_image.go) is the opaque function `upload`. Only its success or failure is used.
- gin binding and validation are the payload's `Result`: a bind failure is an `Err` with its message. Validation tags are not interpreted.
- The gorm repositories are in-memory maps:
  - a soft delete is a removal;
  - foreign keys are not enforced, so a book may name a missing category;
  - `CheckEmailExisting` swallowing database errors is not modelled;
  - saving associations along with a record is not modelled;
  - the `users` table (`models.User`) declares no index on `email`, and neither does the model: uniqueness of an email rests only on the sign-up check `CheckEmailExisting`, which runs before the insert.
- UsersRepository.UserRepo.CheckEmailExisting: a database error, which the code reports as "email not taken", cannot occur in the in-memory table.
- UsersUsecase.UserUseCase.UpdateUser: like the code, it does not re-check that a changed email is still unique.
- JSON encoding: an empty listing is the empty sequence, whereas Go encodes the nil slice as `null`.
- The book and book category handlers (`app/modules/books/handlers/handler.go`, `app/modules/book_category/handlers/handler.go`) are request/response glue with no logic of their own. They are not part of this model.
- Server wiring, CORS, the port and the route table (app/server/server.go, app/server/router.go) are not part of this model, apart from the secret given to the gate (`Router.AuthSecret`).
- Concurrency: each request is one sequential pass. Requests running in parallel on shared repositories are not modelled.
- The `UpdateUser` and `UserProfile` structs in app/models/user.go are unused by the code and are not modelled.
- Logging (`fmt.Printf` in logout) becomes the returned value of `UserHandlers.LogoutUser`.
