# noteshelf-be core, modelled in Dafny

This project models the core of the noteshelf-be server, a personal book library. Users sign in through Clerk. They upload book files to S3 through signed URLs and keep a reading position per book. The model covers two parts:

- **auth/auth.go**:
  - picking a Clerk user's primary email address and phone number;
  - classifying the `Authorization` header;
  - `syncUser`, the get-or-create of the local `users` row keyed by the Clerk ID;
  - the request context that carries the Clerk user (`"user"`) and the local user (`"dbUser"`) to the handlers.
- **handlers.go**:
  - the object key of an upload;
  - the confirmation of an uploaded book: an existence probe, then one transaction that inserts the book, inserts its progress row and commits;
  - reading a book, with its fixed decision order and the owner check;
  - the reading-progress update and its zero-guarded percentage.

Modules and files:

- `wrappers.dfy`: `Wrappers` (Option, Result) and `Http` (status codes).
- `gostd.dfy`: `GoStd`, Go's `strings.Split` with a one-character separator, and the `int32(x)` conversion, which wraps around.
- `persistence.dfy`: `Persistence`, a point lookup with the three outcomes found / no rows / other error, and the two kinds of insert failure.
- `auth.dfy`: `Auth`, for auth/auth.go.
- `handlers.dfy`: `Handlers`, for handlers.go.

State the source updates in place is a class:

- `Auth.UserTable` holds the `users` map.
- `Auth.RequestContext` holds gin's per-request key-value map.
- `Handlers.BookStore` holds `books` (by UUID) and `reading_progress` (by book and user).

Three state-changing methods are each proved equal to a pure specification function: `UserTable.SyncUser` to `Sync`, `BookStore.ConfirmBookUpload` to `Confirm`, and `BookStore.UpdateReadingProgress` to `UpdateProgress`. `RequestContext.Set` and `AuthMiddleware` state their new state directly in their `ensures`. The properties are lemmas and `ensures` clauses on those functions. `TablesValid` is the store's invariant. It says that object keys are unique, that every book has a progress row for its owner, and that every progress row belongs to a book's owner. Both handler methods preserve it.

External services become parameters:

- `verify` stands for `jwt.Verify`.
- `fetchUser` stands for `user.Get`.
- `parseUuid` stands for `uuid.Parse`.
- `storedKeys` is the set of keys for which `KeyExists` answers true, that is, for which `HeadObject` succeeds. A failed probe counts as absent, whatever the cause: throttling, denied access or an unreachable service.
- `presignUpload` and `signRead` stand for the two signing calls.
- `newId` is the UUID that `uuid.New` would generate.
- Boolean fault flags stand for store failures other than the ones the code tells apart.

In these places the code does something other than one might expect, and the model follows the code:

- **Progress update.** `updateReadingProgressHandler` has no not-found and no forbidden check. The error of its book lookup is ignored. A failed lookup therefore yields the zero book, 0 pages and a 0 percent write. The only protection is the row key `(book, caller)`. `UpdatePreservesValid` proves that, under the store invariant, only the book's owner can have such a row.
- **Unparsable UUID.** In the progress update this answers 400. In `getBookHandler` it answers 422.
- **Failed progress insert.** During confirmation this answers 409 (conflict), not a generic error.
- **Author.** The request's `author` is never stored. `CreateBook` is not given it, so a new book's author is none.
- **Context user.** `user.Get`'s error is overwritten before it is checked, so no "upstream unavailable" outcome exists. The Clerk user is always bound under `"user"` before `syncUser` runs.
- **Missing returns.** `generateUploadUrlHandler` and `updateReadingProgressHandler` do not return after failing to read `"dbUser"`. The 500 status is already written, and a nil dereference follows before any store call that writes. The model answers 500 and changes nothing. A failed `Begin` in `confirmBookUploadHandler` is a panic path too. pgxpool returns a nil transaction on error, so the deferred `tx.Rollback` panics. The panic comes before any status is written, so the error branch after `Begin` never runs. The router that serves handlers.go is not among the source files. The model assumes that it recovers panics with 500, as `gin.Default()` does; the older main.go uses it. Under that assumption the model gives 500 with no write on every panic path.
- **Required fields.** gin's `binding:"required"` rejects a field's zero value. An empty `title`, an empty `name` and a `current_page` of 0 all answer 400.

## Model

| member | source | states |
|---|---|---|
| GoStd.ToInt32 | handlers.go:88 | the result is a signed 32-bit value congruent to the input modulo 2^32 |
| GoStd.ToInt32KeepsInRange | handlers.go:182 | a value that fits in 32 bits is unchanged by the conversion |
| GoStd.Split | auth/auth.go:57 | at least one part; no part contains the separator; joining the parts with the separator gives the input back |
| GoStd.SplitUnique | auth/auth.go:57 | any list of at least one separator-free part whose join is the input is exactly the split of the input |
| Persistence.GetByKey | repository/users.sql.go:88-102 | found with the stored row when the key is present; no-rows when it is absent; the other error exactly when the store fails |
| Auth.PrimaryContact | auth/auth.go:17-47 | none when the primary ID is absent; a result is the value of an entry that is present and carries the primary ID |
| Auth.PrimaryContactFirstMatch | auth/auth.go:37-43 | when some entry matches, the result is the value of the first present entry with the primary ID; nil entries and earlier non-matching entries are skipped |
| Auth.PrimaryContactNoMatch | auth/auth.go:37-46 | when no present entry carries the primary ID the result is none |
| Auth.FindPrimary | auth/auth.go:17-47 | the loop with early return: none without a primary ID; a result is the first match; none means no entry matches; equal to PrimaryContact |
| Auth.GetPrimaryEmail | auth/auth.go:33-47 | the primary email is the first match for the primary-email ID among the email addresses |
| Auth.GetPrimaryPhone | auth/auth.go:17-31 | the primary phone is the first match for the primary-phone ID among the phone numbers |
| Auth.ClassifyHeader | auth/auth.go:51-62 | missing exactly for the empty header; a bearer token never contains a space |
| Auth.ClassifyHeaderShape | auth/auth.go:52-66 | the empty header is missing; a header is a bearer token T exactly when it is "Bearer " followed by a space-free T; every other header is malformed (406) |
| Auth.ClassifyOtherSchemeMalformed | auth/auth.go:59-61 | "Token abc" is malformed |
| Auth.ClassifyThreePartsMalformed | auth/auth.go:59-61 | "Bearer a b" is malformed, since it splits into three parts |
| Auth.ClassifyBearerToken | auth/auth.go:64-66 | "Bearer abc" passes on exactly the token "abc" |
| Auth.Subject | auth/auth.go:64-70 | a subject exists only for a bearer header whose token the verifier accepts, and it is the verifier's answer for that token |
| Auth.UserRow | auth/auth.go:93-99 | the new row has the Clerk ID, the given email and phone, and the Clerk user's name fields |
| Auth.CreateUser | repository/users.sql.go:12-48 | the insert succeeds exactly when there is no fault and the ID is free, and adds exactly the row; a taken ID is a unique violation |
| Auth.Sync | auth/auth.go:85-108 | an existing user is returned unchanged and the table is not touched; a lookup error is passed on with no insert; a missing user without a primary email is an error with the table unchanged; a failed insert is passed on as an error; otherwise exactly one row is inserted and returned; every failure leaves the table as it was; no other row is added, changed or removed; the invariant "rows stored under their IDs" is kept |
| Auth.SyncIdempotent | auth/auth.go:86-104 | after a successful sync, a second sync for the same Clerk ID returns the same record and leaves the table unchanged |
| Auth.UserTable.SyncUser | auth/auth.go:85-108 | the returned value and the new table are those of Sync on the old table |
| Auth.GetClerkUserFromRequest | auth/auth.go:110-125 | an error when "user" is absent or holds another type; otherwise the bound Clerk user |
| Auth.GetDBUserFromRequest | auth/auth.go:127-142 | an error when "dbUser" is absent or holds another type; otherwise the bound local user |
| Auth.ContextRoundTrip | auth/auth.go:73-80 | a user bound in the context is the one read back, and binding one key does not change what the other key yields |
| Auth.RequestContext.Set | auth/auth.go:73 | the key is bound to the value and no other binding changes |
| Auth.AuthMiddleware | auth/auth.go:49-83 | an empty header gives 401; a malformed one gives 406; a rejected token gives 401 with nothing touched; otherwise "user" is bound and syncUser runs; its failure gives 500 without binding "dbUser"; on success "dbUser" is bound to the stored row for the Clerk ID and the request goes on |
| Handlers.UploadKey | handlers.go:42 | the key is the owner ID, then one slash, then the client's name |
| Handlers.UploadKeyRoundTrip | handlers.go:42 | for an owner ID without a slash, cutting the key at its first slash gives back the owner and the name, so keys are namespaced per user |
| Handlers.GenerateUploadUrl | handlers.go:30-51 | 500 without a context user; 400 for an empty name; a failed signing 500; a URL is issued exactly when signing the key under the caller's own ID succeeds, and it is that signed URL |
| Handlers.NewBook | handlers.go:88 | the new book has the caller as owner and the request's key, title and page count (as int32); no author |
| Handlers.ZeroProgress | handlers.go:100 | the new progress row is keyed by this book and user; its page and percentage are the column defaults 0 and 0.0 |
| Handlers.InsertBook | handlers.go:88-98 | the insert succeeds exactly when there is no fault, the ID is free and no book uses the key; a unique violation exactly when the ID or the key is taken |
| Handlers.InsertProgress | handlers.go:100-103 | the insert succeeds exactly when there is no fault, the (book, user) row is absent and the book exists, and adds exactly that row |
| Handlers.Confirm | handlers.go:60-110 | all or nothing: any non-200 leaves both tables as they were; with no context user 500; an empty title 400; a key the probe does not confirm (absent, or the probe failed) 400 before any transaction; a failed begin 500; a key or a book ID already used 409; another insert failure 500; a failed progress insert 409; a failed commit 500; on 200 exactly the new book (owner = caller, the request's key, title and pages) and its zero progress row keyed (book, caller) are added |
| Handlers.ConfirmPreservesValid | handlers.go:78-109 | the store invariant is kept, and the number of books grows by exactly one on success and is unchanged otherwise |
| Handlers.ConfirmSameKeyTwice | handlers.go:89-94 | after a successful confirmation, confirming the same key again is a 409 that changes nothing, and exactly one book holds the key |
| Handlers.GetBook | handlers.go:112-148 | decision order: no context user 500; an invalid UUID 422; a store error 500; a missing book 404; another owner 403; a failed signing for the owner 500; a read URL is produced exactly for the owner when signing succeeds, and it is the signed URL of the book's own key |
| Handlers.PercentageComplete | handlers.go:175-180 | 0 when the book has fewer than 1 page; otherwise the percentage times the total equals the current page times 100 |
| Handlers.PercentageExamples | handlers.go:176-180 | 0 pages gives 0; page 50 of 200 gives 25 |
| Handlers.PercentageBounds | handlers.go:179 | between page 0 and the last page the percentage is within 0 to 100; past the last page it exceeds 100, since there is no clamping |
| Handlers.TotalPagesSeen | handlers.go:173-176 | the book's page count when the lookup succeeds, and the zero value 0 when it fails or finds nothing |
| Handlers.UpdateProgress | handlers.go:154-190 | books never change; any non-200 changes nothing; no context user 500; page 0 or an invalid UUID 400; past those checks a missing row or a failed update 500; 200 exactly when the (book, caller) row exists and the update succeeds, and then only that row changes, to the int32 page and the derived percentage |
| Handlers.UpdatePreservesValid | handlers.go:173-182 | the store invariant is kept; a successful update is always by the book's owner; the percentage uses the book's pages, or 0 pages when the ignored lookup failed |
| Handlers.BookStore.ConfirmBookUpload | handlers.go:60-110 | the response and the new tables are those of Confirm on the old tables: the snapshot taken at begin is restored unless the commit succeeds; the store invariant is kept |
| Handlers.BookStore.UpdateReadingProgress | handlers.go:154-190 | the response and the new tables are those of UpdateProgress on the old tables; the store invariant is kept |

## Left out

- `GetUserById`'s no-row error: `syncUser` tests it with `errors.Is(err, sql.ErrNoRows)`, but the store is pgx. That test succeeds only in pgx releases whose `ErrNoRows` wraps `sql.ErrNoRows`, and the module's dependency versions are not part of this model. The model assumes the test succeeds, so a missing user takes the create path.
- The router that serves handlers.go and auth/auth.go is not part of this model. The 500 with no write on the panic paths assumes that it recovers panics as `gin.Default()` does. Without a recovery middleware the connection would drop with no status.
- main.go: an older copy of the same handlers and middleware. Only the handlers.go and auth/auth.go versions are modelled.
- `meHandler` and `getLibraryHandler`: each only reads the context user, or lists the caller's books. Neither is part of the modelled core.
- Clerk's `jwt.Verify` and `user.Get`: foreign calls that become the `verify` and `fetchUser` parameters.
- `user.Get`'s error: the source overwrites it unchecked. In the source, a failed `user.Get` gives a nil user and `syncUser` dereferences it. The model treats `fetchUser` as total.
- utils/s3.go: signing and S3 are foreign SDK calls with wall-clock expiry. They become `presignUpload`, `signRead` and the `storedKeys` set. The expiry windows and URL formats are not modelled.
- `uuid.Parse` and `uuid.New`: library code. They become the `parseUuid` parameter and the `newId` parameter.
- repository/ SQL wrappers: they are replaced by map operations. The `added_at` and `updated_at` timestamps come from the database clock and are not modelled.
- The new progress row's page and percentage: `CreateReadingProgressParams` sets only the book and the user, and the schema of `reading_progress` is not part of this model. `ZeroProgress` takes the two columns' defaults to be 0 and 0.0.
- The SQL of the progress update is not part of this model. It is taken to update the row keyed by (book, user) and to report "no rows" when that row is absent, which answers 500.
- The book's foreign key to `users`: not modelled. The owner always comes from a synced user.
- utils/privateKey.go, setup/setup.go and setup/config.go: file I/O, PEM parsing and environment wiring.
- JSON binding beyond the `required` zero-value rule: malformed JSON and type mismatches are plumbing, and answer 400 in the source.
- gin's abort mechanics: the response status is modelled, but response bodies and the recovery from nil dereferences are not.
- Concurrency: requests are modelled one at a time. The unique constraints are modelled, but races between requests are not.
- Handlers.PercentageComplete: computed over `real`, not IEEE float64. `float64(x)` of a large page number and the rounding of the division are not modelled.
