# cinema-fastapi: a verified model of the account, catalog and order core

This project models the core of the cinema-fastapi online cinema service in Dafny:

- account registration, activation, login and password recovery;
- the bearer-token gate in front of every protected route;
- the hourly sweep of expired one-time tokens;
- the movie catalog: genres, stars, directors, certifications, movies and favourites;
- movie checkout and payment tracking.

Every database table the core touches becomes a field of a store object:

- `Accounts.AccountStore` holds users, activation tokens, password-reset tokens, the refresh-token ledger and an outbox of emails.
- `Catalog.CatalogStore` holds the movies, the four `Catalog.EntityTable`s, the movie-entity link sets and the favourites set.
- `Payments.OrderBook` holds orders and payments.

Each route handler that writes to the database is a method. It states the response for every branch of the handler and the whole new state, and it keeps the store's invariant `Valid()`. The invariants are:

- emails are unique;
- at most one activation token and one reset token per user;
- every refresh row belongs to an active user;
- entity names and movie `(name, year, time)` keys are unique;
- links point at existing rows;
- every paid order has exactly one payment.

Read-only handlers and pure helpers are functions, with the same shape:

- the password validator;
- the request-schema validators;
- the authentication gate;
- the movie list;
- the library;
- the paged entity counts;
- the pay guard.

Properties that relate several calls are lemmas or short methods that chain endpoint calls. Examples: a reset followed by login, a double toggle, a repeated delete, a redelivered webhook.

Four pieces are abstract stand-ins:

- Time is an integer clock `now` passed to each call.
- A token value is a fresh natural number drawn from a counter.
- A JWT is a value signed with one of two independent secrets (`Jwt`).
- A password digest is an ideal injective hash (`Password.Hash`).

Prices are integer cents. Emails are appended to an `outbox` sequence instead of being sent, so "no email is sent" can be stated.

Where the code and the documented behaviour (route descriptions, docstrings and tests) disagree, the model follows the code:

- Resending an activation code gives two different messages: one for an unknown or already-active email, another for an inactive account. So the response reveals the account's state (`Accounts.AccountStore.ResendActivation`).
- A completed password reset does not revoke the user's refresh tokens (`AccountProperties.RefreshSurvivesPasswordReset`). A password change and an admin deactivation do revoke them.
- A database error returns the text of the exception to the caller. The model replaces that text with one fixed detail, `Http.DatabaseErrorDetail`.
- The create, update and delete routes for movies, genres, stars and certifications in `src/routes/movies.py` take no authentication dependency, so anyone may call them. The model follows the code and puts no gate in front of them. The tests in `tests/cinema/test_movies.py` that expect 403 for a plain user are not followed.
- In the movie list and the library, year `0` applies no filter, because the handler tests `if year:` (`MovieRoutes.YearZeroIsNoFilter`). An empty `search` string fails validation with 422 (`MovieRoutes.CheckQuery`).

## Model

| member | source | states |
|---|---|---|
| Password.Search | src/security/password.py:20-29 | the class search answers true exactly when some character of the password is in the class |
| Password.ValidateStrength | src/security/password.py:15-30 | accepts exactly the strong passwords and returns them unchanged; each rejection names the first failing guard in order: length below 8, length above 72, no upper-case, no lower-case, no digit, no character from `@$!%*?#&`; digits are the ASCII ones (see Left out) |
| Password.ShortRejected | src/security/password.py:16-17 | every password shorter than 8 characters is rejected as too short |
| Password.SeventyThreeCapitalsRejected | src/security/password.py:18-19 | 73 capital letters are rejected as too long |
| Password.ExampleAccepted | src/security/password.py:15-30 | `Password123!` is accepted and returned unchanged |
| Password.NoneOfClass | src/security/password.py:20-29 | a password with no character of a class does not pass that class's check |
| Password.ExampleTooShortRejected | src/security/password.py:16-17 | `short` is rejected as too short |
| Password.ExampleNoUppercaseRejected | src/security/password.py:20-21 | a password with no capital letter is rejected for that reason |
| Password.ExampleNoLowercaseRejected | src/security/password.py:22-23 | a password with no lower-case letter is rejected for that reason |
| Password.ExampleNoDigitRejected | src/security/password.py:24-25 | a password with no digit is rejected for that reason |
| Password.ExampleNoSpecialCharRejected | src/security/password.py:26-29 | `NoSpecialChar123` is rejected for lacking a special character |
| Password.Verify | src/security/password.py:11-12 | verification succeeds exactly when the digest is the hash of the plain password |
| Password.HashVerifies | src/security/password.py:7-12 | a password verifies against its own hash, and no other password does |
| Text.Lower | src/schemas/accounts.py:15-18 | lower-casing keeps the length and maps each character through the ASCII case map (ASCII only, see Left out) |
| Text.LowerChar | src/schemas/accounts.py:15-18 | an ASCII capital letter moves to its lower-case letter, any other character is kept, and no ASCII capital letter is left |
| Text.LowerIdempotent | src/schemas/accounts.py:15-18 | lower-casing twice equals lower-casing once |
| Text.Contains | src/routes/movies.py:58-68 | the substring test is true exactly when the pattern occurs at some position |
| Text.ContainsIgnoringCase | src/routes/movies.py:63-66 | the case-insensitive match is true exactly when the lower-cased pattern occurs in the lower-cased text |
| Text.NatToString | src/routes/movies.py:94-101 | every number prints as a non-empty string of decimal digits whose value is the number and which has no leading zero |
| Text.IntToString | src/routes/movies.py:94-101 | an integer prints as a non-empty string that starts with `-` exactly when it is negative; the digits after the sign denote its absolute value with no leading zero |
| Text.IntToStringInjective | src/routes/movies.py:94-101 | different integers print as different strings |
| AccountSchemas.ValidationFailure | src/schemas/accounts.py:20-23 | a failed field validator surfaces as status 422 |
| AccountSchemas.ParseEmailPassword | src/schemas/accounts.py:9-27 | the request parses exactly when the password is strong; the parsed email is the ASCII-lower-cased input and the password is kept; a failure carries the validator's reason |
| AccountSchemas.ParseResetComplete | src/schemas/accounts.py:34-35 | the reset-complete request parses exactly when the new password is strong, with the email ASCII-lower-cased and the token kept |
| AccountSchemas.ParsePasswordChange | src/schemas/accounts.py:73-81 | the password-change request parses exactly when the new password is strong, and both fields are kept as given |
| AccountSchemas.OldPasswordNotChecked | src/schemas/accounts.py:73-81 | a weak old password does not stop the password-change request from parsing |
| AccountSchemas.ValidatedEmailIsLowerCase | src/schemas/accounts.py:15-18 | a parsed email has no capital letter, and parsing it again gives it back unchanged |
| Jwt.Decode | src/config/settings.py:34-35 | definition of the abstract decoder: it succeeds exactly with the secret the token was signed with and returns the signed claims; the promises are carried by `Jwt.CreateAccessToken`, `Jwt.CreateRefreshToken` and `Jwt.SecretsIndependent` |
| Jwt.CreateAccessToken | src/routes/accounts.py:406-416 | a new access token decodes under the access secret to its claims and does not decode under the refresh secret |
| Jwt.CreateRefreshToken | src/routes/accounts.py:406-416 | a new refresh token decodes under the refresh secret to its claims and does not decode under the access secret |
| Jwt.SecretsIndependent | src/config/settings.py:34-35 | no token decodes under both secrets |
| Jwt.LaterAccessTokenDiffers | src/routes/accounts.py:479-486 | access tokens issued at different times differ |
| AuthGate.CurrentUser | src/crud/accounts.py:15-50 | the gate admits exactly an active user named by a decodable access token. An undecodable token gives 401 "Token is invalid or expired". A missing user claim gives 401 "Could not validate credentials". An unknown user gives 404. An inactive user gives 403. The admitted principal is that user's record |
| AuthGate.CurrentModerator | src/crud/accounts.py:53-61 | the moderator gate admits exactly the principals of the user gate whose group is moderator or admin; any other group gives 403, and the user gate's errors pass through |
| AuthGate.FreshAccessTokenAdmits | src/crud/accounts.py:15-50 | a newly issued access token for a user is admitted exactly when that user exists and is active |
| AuthGate.RefreshTokenRejected | src/crud/accounts.py:20-32 | a refresh token presented as a bearer token is rejected with 401 |
| Accounts.UserByEmail | src/routes/accounts.py:77-84 | the lookup by email returns a user with that email, or none exactly when no user has it |
| Accounts.TokenOfUser | src/routes/accounts.py:309-311 | the lookup returns a user's one token, or none when the user has no token |
| Accounts.OnlyToken | src/routes/accounts.py:309-319 | under the at-most-one rule, a token row of a user is that user's only token |
| Accounts.Reissue | src/routes/accounts.py:232-239 | deleting a user's tokens and inserting a fresh one leaves that one token for the user, keeps every other user's tokens and adds nothing else |
| Accounts.ReissueKeepsOnePerUser | src/routes/accounts.py:232-239 | reissuing keeps at most one token per user |
| Accounts.RowsWithout | src/routes/accounts.py:592-596 | revoking a user's refresh tokens keeps exactly the rows of other users |
| Accounts.FindRow | src/routes/accounts.py:558-565 | the logout lookup finds the first row with the presented token and the caller's id, or none exactly when no such row exists |
| Accounts.LoginRow | src/routes/accounts.py:406-416 | the row stored at login holds a refresh token for that user issued now, expiring `LOGIN_TIME_DAYS` (7) days later |
| Accounts.LoginOutcome | src/routes/accounts.py:390-404 | login succeeds exactly for a strong password that matches an active user with the lower-cased email. A weak password gives 422. An unknown email or a wrong password gives 401. A correct password on an inactive account gives 403 |
| Accounts.RefreshAccessToken | src/routes/accounts.py:456-490 | a refresh succeeds exactly for a ledger token whose user exists, returning a new access token for that user with type `bearer`. A decode failure gives 400, a token absent from the ledger gives 401, and a missing user gives 404 |
| Accounts.DropRowKeepsLedger | src/routes/accounts.py:558-569 | removing one ledger row keeps every other row valid and removes only that row |
| Accounts.AccountStore.constructor | src/routes/accounts.py:86-93 | a new store has the given groups and token lifetimes, no users, no tokens, no refresh rows and no emails, and satisfies the invariant |
| Accounts.AccountStore.Register | src/routes/accounts.py:71-123 | a weak password gives 422, a taken email gives 409 and a missing default group gives 500, each with the store unchanged. Otherwise the store has one new inactive user-group user with the lower-cased email and hashed password, that user's only activation token, and one activation email |
| Accounts.AccountStore.InsertInactiveUser | src/routes/accounts.py:95-121 | inserting a user adds exactly that inactive user, one activation token for it, one activation email, and advances both counters |
| Accounts.AccountStore.PutUser | src/routes/accounts.py:194-204 | writing a user record changes exactly that record |
| Accounts.AccountStore.PutUserRevokingTokens | src/routes/accounts.py:590-596 | writing a user record together with revocation changes exactly that record and removes exactly that user's refresh rows |
| Accounts.AccountStore.DeleteActivationToken | src/routes/accounts.py:179-185 | deleting an activation token removes exactly that token |
| Accounts.AccountStore.DeleteResetToken | src/routes/accounts.py:321-329 | deleting a reset token removes exactly that token |
| Accounts.AccountStore.IssueActivationToken | src/routes/accounts.py:531-537 | issuing an activation token replaces the user's tokens by one fresh token |
| Accounts.AccountStore.IssueResetToken | src/routes/accounts.py:232-240 | issuing a reset token replaces the user's tokens by one fresh token |
| Accounts.AccountStore.Activate | src/routes/accounts.py:153-204 | a token that does not match the email gives 400 "Invalid or expired" with nothing changed. An expired match gives the same 400, and only that token is deleted. An active user gives a distinct 400 with nothing changed. Otherwise the user becomes active, the token is deleted and one confirmation email is sent |
| Accounts.AccountStore.ResendActivation | src/routes/accounts.py:516-549 | an unknown or active email gets one message and nothing changes; an inactive account gets another message, its tokens are replaced by one fresh token, and one activation email is sent |
| Accounts.AccountStore.RequestPasswordReset | src/routes/accounts.py:217-253 | the response is always the same message. An unknown or inactive email changes nothing and sends nothing. An active user's reset tokens are replaced by exactly one fresh token and one reset email is sent |
| Accounts.AccountStore.ResetTarget | src/routes/accounts.py:301-307 | the reset target is an active user with the lower-cased email, found only for a strong password; no target means no active user has that email |
| Accounts.AccountStore.ResetPassword | src/routes/accounts.py:295-346 | a weak password gives 422, and every other failure gives the one 400 "Invalid email or token". With no target, nothing changes. Otherwise all of the target's reset tokens are deleted. The reset succeeds exactly when the presented token is the user's live token; then the password becomes the new hash and one confirmation email is sent. On failure users and outbox are unchanged |
| Accounts.AccountStore.ResetWithToken | src/routes/accounts.py:309-346 | the token step deletes the user's reset tokens, succeeds exactly on the user's only unexpired token, and then replaces the password hash and sends one email |
| Accounts.AccountStore.Login | src/routes/accounts.py:384-428 | a failed login returns the outcome's error and changes nothing; a successful one returns an access token, the refresh token and type `bearer`, and appends exactly one ledger row for that user |
| Accounts.AccountStore.Logout | src/routes/accounts.py:552-570 | the gate's errors pass through with nothing changed. A token not held by the caller gives 404 and deletes nothing. Otherwise exactly one row is deleted, and every deleted row carries the presented token and the caller's id |
| Accounts.AccountStore.ChangePassword | src/routes/accounts.py:580-604 | the gate's errors pass through. A weak new password gives 422 and a wrong old password gives 400, with nothing changed. On success the caller's hash is replaced and all of the caller's refresh rows are removed, while other users' rows stay |
| Accounts.AccountStore.ChangeUserGroup | src/routes/accounts.py:614-650 | a non-admin gets 403, an unknown group 404 and an unknown target 404, each with nothing changed; on success only the target's group changes |
| Accounts.AccountStore.ChangeUserActiveStatus | src/routes/accounts.py:660-699 | a non-admin gets 403, an unknown target 404 and the admin themself 400, each with nothing changed. On success only the target's active flag changes; a deactivation also removes all of the target's refresh rows, an activation keeps them |
| Accounts.TokensValidWiden | src/routes/accounts.py:95-107 | the token-table invariant survives a larger counter and more users |
| Accounts.TokensValidRemove | src/main.py:17-24 | the token-table invariant survives deleting tokens |
| Accounts.TokensValidReissue | src/routes/accounts.py:232-239 | the token-table invariant survives reissuing a token |
| Accounts.LedgerWiden | src/routes/accounts.py:194-204 | the ledger invariant survives when no active user becomes inactive |
| Accounts.UniqueEmailsKept | src/routes/accounts.py:194-204 | editing a user without changing their email keeps emails unique |
| Accounts.UniqueEmailsAdd | src/routes/accounts.py:77-107 | adding a user with an unused email keeps emails unique |
| Accounts.AddUserKeepsValid | src/routes/accounts.py:95-107 | registering keeps the store invariant and gives the new user exactly one activation token |
| Accounts.DropTokenKeepsValid | src/routes/accounts.py:179-185 | deleting an activation or reset token keeps the store invariant |
| Accounts.ReissueKeepsValid | src/routes/accounts.py:232-239 | reissuing an activation or reset token keeps the store invariant |
| Accounts.EditUserKeepsValid | src/routes/accounts.py:194-204 | editing a user without changing the email or deactivating keeps the store invariant |
| Accounts.RevokeUserKeepsValid | src/routes/accounts.py:685-689 | editing a user while revoking their refresh rows keeps the store invariant |
| Accounts.AddRowKeepsValid | src/routes/accounts.py:406-416 | appending an active user's refresh row keeps the store invariant |
| Accounts.DropRowKeepsValid | src/routes/accounts.py:558-569 | deleting one ledger row keeps the store invariant and removes only that row |
| Accounts.LedgerAfterRevoke | src/routes/accounts.py:592-596 | after one user's rows are revoked, the ledger holds for any change to that user |
| AccountProperties.NewPasswordReplacesOld | src/routes/accounts.py:331-346 | after a password is replaced, the new password logs in and the old one gets 401 |
| AccountProperties.LoginTokenRefreshes | src/routes/accounts.py:456-490 | the refresh token issued at login refreshes to an access token for that user |
| AccountProperties.RevokedTokenRejected | src/routes/accounts.py:470-477 | once a user's rows are revoked, that user's refresh token gives 401 |
| AccountProperties.RefreshSurvivesPasswordReset | src/routes/accounts.py:331-346 | replacing a password hash does not change any refresh outcome |
| AccountProperties.ActivationIsSingleUse | src/routes/accounts.py:153-204 | after a successful activation, the same activation request gives 400 |
| AccountProperties.ChangePasswordRevokesSessions | src/routes/accounts.py:580-604 | after a successful password change, the caller's earlier refresh tokens give 401 |
| AccountProperties.DeactivationRevokesSessions | src/routes/accounts.py:660-699 | after an admin deactivates a user, that user's refresh tokens give 401 |
| AccountProperties.ResetThenLogin | src/routes/accounts.py:295-428 | after a successful reset, login with the new password succeeds and login with the old one gets 401 |
| TokenCleanup.Unexpired | src/main.py:17-24 | definition of the sweep's filter: the rows whose expiry is not before now, unchanged; the promises are carried by `TokenCleanup.SweepIdempotent`, `TokenCleanup.SweepsCompose` and `TokenCleanup.SweepInvisibleToRequests` |
| TokenCleanup.UnexpiredKeepsOnePerUser | src/main.py:17-24 | the sweep keeps at most one token per user |
| TokenCleanup.SweepIdempotent | src/main.py:14-25 | sweeping again at an earlier or equal time removes nothing more |
| TokenCleanup.SweepsCompose | src/main.py:14-25 | a sweep followed by a later sweep equals the later sweep alone |
| TokenCleanup.SweepInvisibleToRequests | src/main.py:17-24 | a live token at any later time is live after a sweep, and the sweep adds no live token |
| TokenCleanup.CleanupExpiredTokens | src/main.py:14-26 | both token tables become their unexpired parts, nothing expired remains, users and refresh rows are untouched, and the store invariant holds |
| Paging.CheckPaging | src/crud/movies.py:34-47 | page and page size pass exactly when both are at least 1; otherwise 422 |
| Paging.TotalPages | src/crud/movies.py:65 | the page count is the ceiling of total over page size |
| Paging.Window | src/crud/movies.py:47-63 | a page holds at most a page size of items, and they are the items that start at offset `(page-1)*per_page`, in order |
| Paging.Paginate | src/crud/movies.py:65-80 | the page carries the window, the totals, a previous link exactly when page > 1 and a next link exactly when page < total pages |
| Paging.WindowNonEmptyIff | src/routes/movies.py:81-91 | a page is non-empty exactly when its number is at most the page count |
| Paging.ItemOnItsPage | src/routes/movies.py:81-91 | item `i` appears on page `i / per_page + 1` at position `i % per_page` |
| Paging.PageOf | src/routes/movies.py:81-91 | every item lies on some page within the page count |
| Paging.DistinctPagesDistinctLinks | src/routes/movies.py:94-101 | links to two different pages with the same page size are different strings |
| Catalog.FindName | src/crud/movies.py:24-27 | the name lookup finds a row with that name, or none exactly when no row has it |
| Catalog.FindId | src/crud/movies.py:82-95 | the id lookup finds a row with that id, or none exactly when no row has it |
| Catalog.RemoveAt | src/crud/movies.py:126-134 | removing position `i` keeps the rows before it and shifts the rows after it |
| Catalog.AppendKeepsTableValid | src/database/models/movies.py:117-120 | appending a fresh, unused name keeps ids and names unique and adds exactly the new id |
| Catalog.RemoveKeepsTableValid | src/crud/movies.py:126-134 | deleting a row keeps the table valid and removes exactly its id |
| Catalog.RenameKeepsTableValid | src/crud/movies.py:114-117 | renaming to a name no other row has keeps the table valid and the ids |
| Catalog.RemoveKeepsMoviesValid | src/crud/movies.py:126-134 | deleting a movie keeps ids and `(name, year, time)` keys unique and removes exactly its id |
| Catalog.FindMovie | src/crud/movies.py:82-95 | the movie lookup finds a movie with that id, or none exactly when none has it |
| Catalog.ApplyPatch | src/crud/movies.py:114-117 | definition of a partial update: exactly the supplied fields are set, the id and certification kept; the promises are carried by `Catalog.PatchLaws` and `Catalog.PatchKeepsMoviesValid` |
| Catalog.PatchLaws | src/crud/movies.py:114-117 | an empty patch changes nothing, and applying a patch twice equals applying it once |
| Catalog.WithoutMovie | src/database/models/movies.py:44-94 | definition of the cascade on the movie side: the links of the deleted movie go; the promise is carried by `Catalog.WithoutMovieKeepsLinks` |
| Catalog.WithoutEntity | src/database/models/movies.py:44-94 | definition of the cascade on the entity side: the links of the deleted entity go; the promise is carried by `Catalog.WithoutEntityKeepsLinks` |
| Catalog.WithoutFavoritesOf | src/database/models/movies.py:37-42 | definition of the favourites cascade: the favourites of the deleted movie go; the promise is carried by `Catalog.WithoutFavoritesKeepsMovies` |
| Catalog.WithoutFavoritesKeepsMovies | src/database/models/movies.py:37-42 | after the cascade, every favourite names a remaining movie |
| Catalog.RemoveKeepsCertifications | src/database/models/movies.py:217 | deleting a movie keeps every remaining certification reference valid |
| Catalog.WithoutMovieKeepsLinks | src/database/models/movies.py:44-94 | after a movie's links are removed, every link names a remaining movie |
| Catalog.WithoutEntityKeepsLinks | src/database/models/movies.py:44-94 | after an entity's links are removed, every link names a remaining entity |
| Catalog.LinksFor | src/routes/movies.py:154-163 | definition of a new movie's links: one link to each resolved entity id; the promise is carried by `Catalog.InsertKeepsState` |
| Catalog.AppendKeepsMoviesValid | src/database/models/movies.py:204 | appending a movie with the next id and an unused key keeps movies valid and adds its id |
| Catalog.StateGrows | src/routes/movies.py:141-153 | growing the entity tables keeps the catalog invariant |
| Catalog.EntityDeleteKeepsState | src/crud/movies.py:126-134 | deleting an entity, and with it its links, keeps the catalog invariant, provided no movie uses a deleted certification |
| Catalog.MovieDeleteKeepsState | src/crud/movies.py:126-134 | deleting a movie, and with it its links and favourites, keeps the catalog invariant |
| Catalog.InsertKeepsState | src/routes/movies.py:154-166 | inserting a movie with existing entity ids and an unused key keeps the catalog invariant |
| Catalog.PatchKeepsState | src/crud/movies.py:114-124 | a patch that clashes with no other key keeps the catalog invariant |
| Catalog.PatchKeepsMoviesValid | src/crud/movies.py:114-124 | a patch that keeps the id and clashes with no key keeps movies valid and keeps the ids |
| Catalog.EntityTable.constructor | src/crud/movies.py:19-21 | a new table of a kind is empty and valid |
| Catalog.EntityTable.GetOrCreate | src/crud/movies.py:24-32 | an existing name returns its row with nothing changed; otherwise exactly one row with that name and the next id is appended; names stay unique |
| Catalog.EntityTable.Create | src/crud/movies.py:97-112 | an existing name gives 409 with nothing inserted; otherwise exactly one row with the next id is appended |
| Catalog.EntityTable.GetById | src/crud/movies.py:82-95 | the lookup succeeds exactly for an existing id and returns that row; otherwise 404 naming the id |
| Catalog.EntityTable.RemoveIndex | src/crud/movies.py:126-134 | deleting a row removes exactly it and its id |
| Catalog.EntityTable.Update | src/crud/movies.py:114-124 | an unknown id gives 404; a name held by another row gives 400; both leave the table unchanged. Otherwise only that row's name changes and the ids stay |
| Catalog.CatalogStore.Table | src/crud/movies.py:137-140 | each entity kind has its own table |
| Catalog.CatalogStore.constructor | src/crud/movies.py:137-141 | a new catalog has four fresh empty tables, no movies, no links and no favourites, and satisfies the invariant |
| Catalog.CatalogStore.Create | src/routes/movies.py:224-230 | creating an entity of any kind behaves as that table's create |
| Catalog.CatalogStore.Update | src/routes/movies.py:232-243 | updating an entity of any kind behaves as that table's update and keeps the catalog invariant |
| Catalog.CatalogStore.Delete | src/crud/movies.py:126-134 | an unknown id gives 404 with nothing changed. A certification still used by a movie gives 400 with nothing changed. Otherwise exactly that row and its links are removed |
| Catalog.CatalogStore.Counts | src/crud/movies.py:52-64 | every entity is listed in table order with the number of movies linked to it |
| Catalog.CatalogStore.ListWithMovieCount | src/crud/movies.py:34-80 | bad paging gives 422 and an empty table gives 404 "Not found"; otherwise the page of counts is paginated with `/cinema/<kind>/` links |
| Catalog.CatalogStore.GetMovie | src/crud/movies.py:82-95 | the movie lookup succeeds exactly for an existing id and returns that movie; otherwise 404 naming the id |
| Catalog.CatalogStore.UpdateMovie | src/routes/movies.py:172-180 | an unknown id gives 404; a patch whose key clashes with another movie gives 400; both leave movies unchanged. Otherwise only that movie is patched |
| Catalog.CatalogStore.DeleteMovie | src/routes/movies.py:183-188 | an unknown id gives 404 with nothing changed; otherwise that movie, its links and its favourites are removed |
| Catalog.CatalogStore.InsertMovie | src/routes/movies.py:154-166 | inserting a movie adds it with the next id and links it to exactly the given entities |
| Catalog.CatalogStore.ToggleFavorite | src/crud/movies.py:144-181 | an unknown movie gives 404 with nothing changed. A present pair is removed with `is_favorite = false`. An absent pair is inserted with `is_favorite = true` |
| Catalog.ToggleTwiceRestores | src/crud/movies.py:144-181 | toggling the same pair twice restores the favourites set and flips the reported flag |
| Catalog.DeleteTwice | src/crud/movies.py:126-134 | after a successful delete, deleting the same id again gives 404 |
| MovieRoutes.CheckQuery | src/routes/movies.py:43-52 | the query passes exactly when page and page size are at least 1 and search is not empty; otherwise 422 |
| MovieRoutes.Select | src/routes/movies.py:53-68 | filtering keeps exactly the movies that match year and search, in their order |
| MovieRoutes.Reverse | src/routes/movies.py:74 | the descending order is the ascending order reversed |
| MovieRoutes.IndexInSorted | src/routes/movies.py:69-77 | every movie appears in the sorted list |
| MovieRoutes.SortedWindowInOrder | src/routes/movies.py:69-82 | every page of the sorted list is in ascending or descending id order, as asked |
| MovieRoutes.ListMovies | src/routes/movies.py:43-105 | bad query parameters give 422. No match or a page past the end gives 404 "No movies found". Otherwise the response paginates the filtered, sorted movies with `/cinema/movies/` links, holding between 1 and a page size of matching catalog movies |
| MovieRoutes.ListedInIdOrder | src/routes/movies.py:69-77 | a listed page is in the id order asked for |
| MovieRoutes.MatchingMovieListed | src/routes/movies.py:43-105 | every matching movie appears on some page of the list |
| MovieRoutes.PageIsWindow | src/routes/movies.py:81-91 | every non-empty page is exactly its window of the ordered matches |
| MovieRoutes.PositionInOrder | src/routes/movies.py:53-77 | every matching movie has a position in the ordered matches |
| MovieRoutes.SelectIgnoresYearZero | src/routes/movies.py:54-55 | filtering by year 0 keeps the same movies as no year filter |
| MovieRoutes.YearZeroIsNoFilter | src/routes/movies.py:54-55 | the list for year 0 equals the list with no year |
| MovieRoutes.ResolveAll | src/routes/movies.py:144-153 | resolving a list of names returns one id per name, each id's row holds that name, and the table only grows, adding rows for the new names |
| MovieRoutes.ResolvedIds | src/routes/movies.py:144-153 | the resolved ids are exactly the ids of the rows named in the request |
| MovieRoutes.GrewByStep | src/crud/movies.py:24-32 | one get-or-create step extends the table's growth by that one name |
| MovieRoutes.ResolveRequest | src/routes/movies.py:141-153 | the certification, genres, stars and directors are all resolved by get-or-create, so each requested name has a row |
| MovieRoutes.CreateMovie | src/routes/movies.py:122-169 | an existing `(name, year, time)` gives 409 with nothing changed. Repeated entity names give 400 with everything rolled back. Otherwise one movie with the next id is appended and linked to its resolved entities, and existing names are reused |
| MovieRoutes.NamedIdsExist | src/routes/movies.py:141-153 | every resolved name has a row and every resolved id exists |
| Payments.OwnedCheckAsWritten | src/routes/payments.py:40-53 | the already-owned check as written passes exactly when nothing is owned, and it raises a server error exactly when two or more paid orders hold the movie |
| Payments.OwnedIffPaidOrders | src/routes/payments.py:40-50 | a movie is owned exactly when some paid order of the user holds it |
| Payments.OwnedCheck | src/routes/payments.py:40-53 | the already-owned check passes exactly when nothing is owned, and otherwise gives 400 "You have a movie." |
| Payments.OwnedMovieIds | src/routes/payments.py:179-187 | the owned set is exactly the movies in the user's paid orders |
| Payments.Owned | src/routes/payments.py:179-187 | the library keeps exactly the catalog movies the user owns |
| Payments.OwnedKeepsIdOrder | src/routes/payments.py:179-187 | restricting to owned movies keeps id order |
| Payments.LibraryPage | src/routes/payments.py:169-245 | bad paging gives 422. An empty library gives 404. Otherwise the response paginates the owned, filtered movies with `/me/library/` links and holds only owned catalog movies |
| Payments.LibraryListsEachMovieOnce | src/routes/payments.py:179-181 | the library lists each movie at most once |
| Payments.OwnedMovieListed | src/routes/payments.py:169-245 | every owned matching movie appears on some library page |
| Payments.PageIsWindow | src/routes/payments.py:224-231 | every non-empty library page is exactly its window |
| Payments.PositionInLibrary | src/routes/payments.py:179-214 | every owned matching movie has a position in the ordered library |
| Payments.OrderBook.Checkout | src/routes/payments.py:35-82 | the gate's errors pass through. An owned movie gives 400 and a missing movie gives 404, each with nothing changed. Otherwise exactly one pending order for the caller is added, with one item whose price equals the total and the movie's price. The owned check is the corrected one from Findings |
| Payments.OrderBook.constructor | src/database/models/payments.py:23-69 | a new order book has no orders and no payments and satisfies the invariant |
| Payments.OrderBook.Pay | src/routes/payments.py:86-118 | the gate's errors pass through. A missing or foreign order gives 404 and a paid order gives 400. Otherwise a session is opened for that order, charging its total in cents |
| Payments.OrderBook.HandleWebhook | src/routes/payments.py:122-155 | a bad signature gives 400 with nothing changed. A verified event answers success. A completion for an unpaid known order marks it paid and records one payment of its total. Every other event changes nothing |
| Payments.OrderBook.Library | src/routes/payments.py:168-245 | the gate's errors pass through; otherwise the library is the page of the caller's owned movies, and each listed movie is owned |
| Payments.CheckoutPayComplete | src/routes/payments.py:35-118 | after checkout, pay opens a session for the order total; once the order is completed it owns the movie and paying again gives 400 |
| Payments.WebhookRedelivered | src/routes/payments.py:135-153 | a redelivered event returns the same answer and records at most one payment |
| Payments.DoublePurchase | src/routes/payments.py:40-153 | two checkouts while pending, followed by both completions, leave two paid orders for the movie; the as-written check then gives 500 and the corrected one 400 |
| Payments.TwoPaidOrdersCounterexample | src/routes/payments.py:40-53 | two paid orders of user 7 with movie 3 make the as-written check fail with 500 |
| Payments.TwoPaidOrders | src/routes/payments.py:40-53 | any two paid orders of the user with the movie make the as-written check fail with 500, while the corrected check gives 400 |
| Payments.PendingOrderOwnsNothing | src/routes/payments.py:59-74 | adding a pending order does not change what the user owns |
| Payments.AddOrderKeepsValid | src/routes/payments.py:59-74 | adding the checkout's pending order keeps the order-book invariant |
| Payments.CompleteKeepsValid | src/routes/payments.py:143-153 | marking an unpaid order paid together with its one payment keeps the order-book invariant |

## Left out

- Password hashing is an ideal injective digest (`Password.Hash`), not bcrypt with 14 rounds.
- JWT signing is two independent abstract signers. `src/security/token.py` is not part of this model, so token expiry inside a JWT is not modelled. The refresh route's 400 detail is `str(error)` of the decoder's exception; the model's fixed `Jwt.InvalidTokenDetail` ("Token is invalid or expired.") is its own text, not the source's.
- The token lifetimes are constructor parameters of `Accounts.AccountStore`, because the token models in `src/database/models/accounts.py` are not part of this model. Token values are fresh counter values, not random strings.
- Email delivery is an append-only outbox; link formatting is not modelled.
- Clocks are an integer `now` parameter; `datetime` time zones are not modelled.
- The APScheduler hourly job, the `print` at the end of the sweep and async concurrency are left out.
- Stripe session creation and webhook signature verification are foreign calls. Session creation is assumed to succeed, so the 500 carrying the exception text when `stripe.checkout.Session.create` raises (`src/routes/payments.py:117-118`) is not modelled. The model receives a flag saying whether the signature verified. On failure the model gives a fixed detail instead of the exception's text.
- Payments.OrderBook.HandleWebhook: an `order_id` that is not a number would raise in `int()`. The model receives the id already parsed, so that failure is not modelled.
- Prices are integer cents, so the `int(total * 100)` truncation of a decimal total is exact here.
- The Float columns `imdb`, `meta_score` and `gross` (`src/database/models/movies.py:196-199`) are left out of `Movie`, `MovieCreate` and `MoviePatch`, because floating point is not modelled. The `min_rating` filter on `imdb` and the `rating_top` sort go with them.
- Ids are gap-free counters (`nextId`, `nextMovieId`), and a failed create is a no-change outcome. In PostgreSQL a rolled-back insert (the repeated-names 400 of `src/routes/movies.py:141-169`) still consumes sequence values, so the source's later ids skip numbers where the model's do not.
- The `uuid` column is left out; it is a random default that no modelled route reads.
- The `price_asc`, `price_desc` and `year_new` sorts are not modelled, although price (a `DECIMAL(10, 2)`, here integer cents) and year (an integer) are. Only `id_asc` and `id_desc` are modelled, so that the ordering proofs stay about ids; ties in price or year would also leave the database's order unspecified.
- Password.ValidateStrength: the digit test is narrowed to ASCII `0-9`. The source's `[A-Z]` and `[a-z]` are ASCII ranges and are modelled exactly, but its `\d` matches every Unicode decimal digit (such as U+0661), so a password whose only digit is non-ASCII is accepted by the source and rejected by the model. The length is counted in characters, as `len` does.
- Text.Lower: folds only ASCII `A-Z`. Python's `str.lower()` lowers every Unicode capital and may change a string's length; neither is modelled.
- Text.LowerChar: maps only ASCII capitals; other capitals are kept as they are.
- AccountSchemas.ParseEmailPassword: the email is lower-cased with the ASCII-only `Text.Lower`. Two registrations whose emails differ only in a non-ASCII capital are one account in the source and two in the model; login, activation and reset lookups differ in the same way.
- AccountSchemas.ParseResetComplete: the email is lower-cased with the ASCII-only `Text.Lower`, with the same consequence for the reset lookup.
- Payments.OrderBook.Checkout: applies the corrected `Payments.OwnedCheck` from Findings. As written (`src/routes/payments.py:51`), two paid orders holding the movie make the check raise, giving 500 where the model gives 400; `Payments.OwnedCheckAsWritten` and `Payments.DoublePurchase` model that path.
- MovieRoutes.Select: ILIKE is modelled as an ASCII case-insensitive substring test. `%` and `_` inside the search text are not treated as wildcards, and Unicode case folding is not modelled.
- Catalog.CatalogStore.DeleteMovie: the foreign key from order items to movies is not modelled, so deleting a purchased movie here succeeds where the database would refuse it.
- Database failures are modelled only where a constraint decides them: duplicate names, duplicate movie keys, repeated links and certifications in use. Others, including the 500 paths of the account routes, are left out. So is the exact text of a constraint error.
- Pydantic field bounds and formats are left out, that is email syntax, string lengths and whitespace handling. So are FastAPI routing and dependency injection. The gate is checked before the body's validation, because dependencies run first.
- `get_me` and `update_profile` are plain attribute copies and are left out. So are reviews, the seeding scripts `load_json.py` and `init_admin.py`, and the success and cancel pages.
- `get_movie_by_id` and the per-entity detail routes only load related rows for display. Lookup is modelled by `Catalog.CatalogStore.GetMovie` and `Catalog.EntityTable.GetById`.

## Findings

| source | as written | input that shows it | evidently intended | confidence | as-written member | corrected member |
|---|---|---|---|---|---|---|
| src/routes/payments.py:40-53 | checkout reads the already-owned check with `scalar_one_or_none()`, which raises when the query returns more than one row | one user checks out the same movie twice while both orders are pending, and then both orders complete; a third checkout now finds two paid rows and fails with 500 | refuse the checkout with 400 "You have a movie." whenever at least one paid order holds the movie | not executed | Payments.OwnedCheckAsWritten | Payments.OwnedCheck |
