# inventory-api, modelled in Dafny

inventory-api is a small JSON API. Its endpoints:
- `POST /auth/signup`, `POST /auth/login`, `GET /me` and `POST /auth/logout` manage an account and a cookie session;
- `GET /items`, `POST /items`, `PATCH /items/:id` and `DELETE /items/:id` manage the logged-in user's inventory rows.

All of it lives in one Express handler file backed by Postgres, bcrypt and express-session.

This project models that file's request handling:
- **The request checks** (`text.dfy`, `validation.dfy`): JavaScript's `trim` over the ECMA-262 white-space set, `toLowerCase`, and the UTF-16 `length`. On top of them sit email normalisation, the signup rules, the item-name and quantity rules, the PATCH rules and the path-id rule. Each check returns a `Result` whose error is one of the handlers' error answers.
- **The two tables and the SQL statements** (`tables.dfy`): the SELECTs by email and by id, the ownership-filtered `UPDATE ... COALESCE` and `DELETE`, and the per-user listing under `ORDER BY created_at DESC`. Each is a function from the rows before to the rows after, or to the rows returned. The table constraints are predicates, with lemmas that the statements keep them. The two INSERTs are not separate functions: each is written inline in its route in `routes.dfy`, as one row appended to the table.
- **The handlers** (`routes.dfy`): one function per route, from the state a request arrives in to the response and the next state. The state is the tables, their id sequences and `req.session.userId`. Lemmas state what each route promises: who gets 401, 400, 404 and 409; which rows a request may touch; and that the table invariant is kept.
- **The server object** (`api.dfy`): a class whose fields are the tables, the id counters and the session. It has one method per route, which updates those fields in place and is proved to do exactly what the route function says.
- **Client scenarios** (`scenarios.dfy`): request sequences against a fresh server. They are proved from the server's and the routes' contracts, unfolding a route's definition where a step needs it. They cover signup-then-conflict, login after logout, logout ending access, an item's create/patch/delete/list lifecycle, and a second user who can neither see nor touch the first user's row.

## Model

| member | source | states |
|---|---|---|
| Text.TrimStart | index.js:59 | drops exactly the leading white space: the result is a suffix, the dropped part is all white space, and the result does not start with white space |
| Text.TrimEnd | index.js:59 | drops exactly the trailing white space: the result is a prefix, the dropped part is all white space, and the result does not end with white space |
| Text.Trim | index.js:143 | `trim`: the result has no white space at either end, and is empty exactly when the input is all white space |
| Text.TrimIsTrimEndOfTrimStart | index.js:59 | `trim` is trimming the front and then the back |
| Text.TrimFixesTrimmed | index.js:143 | a string with no white space at either end is left unchanged by `trim` |
| Text.TrimIdempotent | index.js:143 | trimming twice is trimming once |
| Text.TrimStartIgnoresPadding | index.js:59 | white space put in front does not change the front-trimmed string |
| Text.TrimStartOfAppend | index.js:59 | front-trimming `s + post` with `post` all white space gives the front-trimmed `s` followed by `post`, or empty when `s` is all white space |
| Text.TrimEndIgnoresPadding | index.js:59 | white space appended does not change the back-trimmed string |
| Text.TrimIgnoresPadding | index.js:59 | white space added at either end does not change the trimmed string |
| Text.TrimFindsCore | index.js:143 | a string with no white space at either end, padded with white space on both sides, is exactly what `trim` returns; with TrimIsTrimEndOfTrimStart and the contracts of TrimStart and TrimEnd this fixes the value of `trim` |
| Text.LowerChar | index.js:59 | one character lower-cased: never a capital, white space exactly when the input was, a capital becomes the character 0x20 above it, and a non-capital is unchanged |
| Text.LowerCase | index.js:59 | `toLowerCase`: same length, no capital left, white space at the same positions, and a string without capitals is unchanged |
| Text.LowerCaseKeepsTrimmed | index.js:59 | lower-casing a trimmed string leaves it trimmed |
| Text.LowerCaseIdempotent | index.js:59 | lower-casing twice is lower-casing once |
| Text.LowerCaseOfInit | index.js:59 | lower-casing all but the last character equals the lower-cased string without its last character |
| Text.LowerCaseCommutesWithTrimStart | index.js:59 | lower-casing and front-trimming commute |
| Text.LowerCaseCommutesWithTrimEnd | index.js:59 | lower-casing and back-trimming commute |
| Text.LowerCaseCommutesWithTrim | index.js:59 | lower-casing and `trim` commute |
| Text.Utf16Length | index.js:63 | `password.length`: between the number of characters and twice that, and equal to it exactly when no character lies outside the Basic Multilingual Plane; so one character counts 1 inside that plane and 2 outside it |
| Text.Utf16LengthOfConcat | index.js:63 | the length of a concatenation is the sum of the lengths, so with the one-character case the length is fixed for every string |
| Validation.Failure.Status | index.js:47-207 | every error answer is a 4xx status: 401 exactly for "Unauthorized" and "Invalid credentials", 400 exactly for the six input errors, 409 exactly for the taken email and 404 exactly for the missing row |
| Validation.Failure.Message | index.js:47-207 | every error answer carries a non-empty message |
| Validation.MessagesIdentifyFailures | index.js:47-207 | no two error answers share a message text |
| Validation.NormalizeEmail | index.js:59 | the stored form of an address: trimmed, no capital letter, and empty exactly when the raw address is all white space |
| Validation.NormalizeEmailFixesNormal | index.js:89 | an address already in stored form is unchanged by normalisation |
| Validation.NormalizeEmailIdempotent | index.js:89 | normalising twice is normalising once |
| Validation.NormalizeEmailIgnoresCaseAndPadding | index.js:89 | an address lower-cased and padded with white space normalises to the same stored address |
| Validation.CheckSignup | index.js:59-63 | an accepted signup carries the normalised, non-empty email and the password unchanged; a rejection is "Email and password required" or "Password must be at least 8 characters" |
| Validation.CheckSignupAccepts | index.js:62-63 | a signup passes exactly when the email is not all white space and the password has at least 8 UTF-16 code units |
| Validation.CheckSignupRejects | index.js:62-63 | a blank email or empty password is reported before a short password, and both answer 400 |
| Validation.CheckNewItem | index.js:143-149 | an accepted create carries the trimmed, non-empty name and the quantity, 0 when absent; a rejection is "Name is required" or the quantity message |
| Validation.CheckNewItemAccepts | index.js:143-149 | a create passes exactly when the name is not all white space and the quantity is absent or a non-negative integer |
| Validation.CheckNewItemRejects | index.js:146-148 | a missing name is reported before a bad quantity, and both answer 400 |
| Validation.CheckItemId | index.js:162-163 | the path id passes exactly when it is an integer, and is passed on unchanged; otherwise "Invalid id" |
| Validation.CheckPatch | index.js:162-171 | an accepted PATCH carries the integer id, a valid patch, the trimmed name when one was supplied and the quantity when one was supplied; a rejection is one of the three PATCH errors |
| Validation.CheckPatchAccepts | index.js:162-171 | a PATCH passes exactly when the id is an integer and every supplied field is valid; an absent field is never an error |
| Validation.CheckPatchRejects | index.js:162-171 | a bad id is reported before anything else; "Name cannot be empty" is reported exactly when the id is an integer and a supplied name is all white space, so before a bad quantity; every rejection answers 400 |
| Tables.Hash | index.js:65 | the digest verifies the password it was made from and no other, at cost 10 |
| Tables.CompareAcceptsOnlyHashedPassword | index.js:100 | `bcrypt.compare` against a stored digest accepts exactly the password the digest was made from, whatever the salt |
| Tables.UserByEmail | index.js:92-97 | the lookup by email returns a row with that email, and returns none exactly when no row has it |
| Tables.UserByEmailFindsTheRow | index.js:92-97 | under the unique-email constraint the lookup returns the one row with that email |
| Tables.UserById | index.js:111-116 | the lookup by id returns a row with that id, and returns none exactly when no row has it |
| Tables.FindOwned | index.js:181 | the row the `id AND user_id` filter hits is in the table and matches, and there is none exactly when no row matches |
| Tables.ApplyPatch | index.js:176-180 | `COALESCE`: a supplied column takes the new value, an omitted one keeps its value, `updated_at` is stamped, and every other column is unchanged |
| Tables.UpdateOwned | index.js:174-189 | the UPDATE keeps the table's length, patches exactly the rows the filter matches and leaves every other row as it was |
| Tables.UpdateOwnedMissChangesNothing | index.js:174-189 | an UPDATE that matches no row leaves the table unchanged |
| Tables.SameIdSamePosition | index.js:181 | under the primary key two positions holding one id are the same position |
| Tables.UpdateOwnedChangesOneRow | index.js:174-189 | under the primary key an UPDATE that hits changes one row and no other |
| Tables.UpdateOwnedReturnsPatchedRow | index.js:182-191 | the row RETURNING hands back is the hit row patched, and the table holds it under the same id and owner |
| Tables.DeleteOwned | index.js:201-204 | the DELETE keeps exactly the rows the filter does not match, each as often as before |
| Tables.DeleteOwnedMissChangesNothing | index.js:201-207 | a DELETE that matches no row leaves the table unchanged |
| Tables.UniqueItemIdsTail | index.js:201-204 | below the first row the primary key still holds, and no row repeats the first row's id |
| Tables.ConsKeepsUniqueItemIds | index.js:201-204 | a row put in front of rows with other ids keeps the primary key |
| Tables.DeleteOwnedKeepsUniqueIds | index.js:201-204 | deleting rows keeps the primary key |
| Tables.DeleteOwnedRemovesOne | index.js:201-207 | under the primary key a DELETE that hits removes exactly one row |
| Tables.Owned | index.js:132-137 | `WHERE user_id = $1`: exactly the rows of that owner, each as often as in the table |
| Tables.ConsNewestFirst | index.js:136 | a row no older than any row of a newest-first list can go in front of it |
| Tables.InsertNewestFirst | index.js:136 | inserting into a newest-first list keeps it newest-first and adds exactly that row |
| Tables.NewestFirstTail | index.js:136 | below the head of a newest-first list the rows are newest-first and no newer than the head |
| Tables.SortNewestFirst | index.js:136 | `ORDER BY created_at DESC`: the result is newest-first and a permutation of the input |
| Tables.InsertUserKeepsUsersValid | index.js:68-73 | inserting a user with the next id and an unused normalised email keeps the users constraints, and the id was unused |
| Tables.MoreUsersKeepItemsValid | index.js:68-73 | adding a user never orphans an item |
| Tables.InsertItemKeepsItemsValid | index.js:151-156 | inserting a valid row with the next id and an existing owner keeps the items constraints |
| Tables.UpdateOwnedKeepsItemsValid | index.js:174-189 | a valid patch keeps the items constraints |
| Tables.UpdateOwnedKeepsRowsValid | index.js:174-189 | after a valid patch every row is still valid, has an id below the counter and an existing owner |
| Tables.UpdateOwnedKeepsUniqueIds | index.js:174-189 | an UPDATE keeps the primary key |
| Tables.DeleteOwnedKeepsItemsValid | index.js:201-204 | the DELETE keeps the items constraints |
| Routes.SessionUser | index.js:46-49 | `requireAuth` lets a request through exactly when the session holds a truthy (non-zero) user id, and then that id |
| Routes.SignupRoute | index.js:58-85 | signup never touches items, and either answers 201 or leaves the whole state as it was |
| Routes.SignupKeepsInvariant | index.js:58-85 | signup keeps the table constraints and a session that names an existing user |
| Routes.SignupSucceedsExactly | index.js:58-85 | signup answers 201 exactly when the email is not all white space, the password has at least 8 code units and no row has the normalised email |
| Routes.SignupCreatesAccount | index.js:65-77 | a 201 appends one row with a fresh id, the normalised email and the password's digest, sets the session to it and answers `{ user: { id, email } }` |
| Routes.SignupRejectsTakenEmail | index.js:78-81 | a valid signup for a registered address answers 409 and changes nothing |
| Routes.SignupRejectsInvalidInput | index.js:62-63 | an invalid signup answers 400 with its message and changes nothing |
| Routes.LoginRoute | index.js:88-105 | login changes only the session, and either answers 200 or answers 401 "Invalid credentials" with nothing changed |
| Routes.LoginKeepsInvariant | index.js:88-105 | login keeps the table constraints and a session that names an existing user |
| Routes.LoginSucceedsForTheAccount | index.js:97-104 | for the account with the normalised address, the right password answers `{ user }` and sets the session to that account, and a wrong one answers 401 with nothing changed |
| Routes.LoginFailsForUnknownEmail | index.js:97-98 | an address no account has answers the same 401 with nothing changed |
| Routes.SignupThenLogin | index.js:88-104 | after a successful signup, the same password logs in under any spelling of the address that normalises alike |
| Routes.MeRoute | index.js:108-120 | `/me` always answers 200, with the session's user exactly when the session is truthy and that user exists, else `{ user: null }` |
| Routes.LogoutRoute | index.js:123-128 | logout answers `{ ok: true }`, clears only the session, and afterwards `/me` has no user and `/items` answers 401 |
| Routes.LogoutKeepsInvariant | index.js:123-128 | logout keeps the table constraints |
| Routes.ListRoute | index.js:131-140 | without a session 401; otherwise 200 with exactly the session user's rows, newest first, each as often as stored |
| Routes.ListOfNothingOwnedIsEmpty | index.js:131-139 | a user who owns no rows gets an empty list |
| Routes.CreateRoute | index.js:142-159 | create changes only the items and their id sequence, and either answers 201 or changes nothing |
| Routes.CreateKeepsInvariant | index.js:142-159 | create keeps the table constraints |
| Routes.AddItemKeepsInvariant | index.js:151-156 | appending a valid row with the next id and an existing owner keeps the table constraints |
| Routes.CreateAddsOwnedRow | index.js:142-158 | create answers 201 exactly for a logged-in user and a valid request, appending one row with the next id of the sequence, unused by any row, the session user as owner, the trimmed name, the validated quantity (0 when absent), no category, status or notes, and equal timestamps |
| Routes.CreateRejectsInvalidInput | index.js:146-149 | an invalid create from a logged-in user answers 400 with its message and changes nothing |
| Routes.PatchRoute | index.js:161-195 | PATCH changes only the items and never their number |
| Routes.PatchKeepsInvariant | index.js:161-195 | PATCH keeps the table constraints |
| Routes.PatchTouchesOnlyTheOwnedRow | index.js:174-189 | no row of another user, and no row with another id, is changed by a PATCH |
| Routes.PatchMissChangesNothing | index.js:191-192 | a valid PATCH that matches no row, whether absent or another user's, answers 404 and changes nothing |
| Routes.PatchHitReturnsStoredRow | index.js:174-194 | a PATCH that hits answers 200 with the row as now stored: the hit row with the supplied columns replaced and `updated_at` stamped |
| Routes.PatchRejectsInvalidInput | index.js:162-171 | an invalid PATCH from a logged-in user answers 400 with its message and changes nothing |
| Routes.DeleteRoute | index.js:197-210 | DELETE changes only the items |
| Routes.DeleteKeepsInvariant | index.js:197-210 | DELETE keeps the table constraints |
| Routes.DeleteKeepsOtherRows | index.js:201-204 | DELETE adds no row and removes no row of another user or with another id |
| Routes.DeleteRemovesTheOwnedRow | index.js:201-209 | a DELETE that misses answers 404 and changes nothing; one that hits answers `{ ok: true }` and removes exactly the matching row |
| Routes.DeleteRejectsInvalidId | index.js:198-199 | a non-integer id answers 400 "Invalid id" and changes nothing |
| Routes.ItemRoutesNeedSession | index.js:46-49 | without a truthy session every item route answers 401 and changes nothing |
| Api.Server.constructor | index.js:11-12 | a new server has empty tables, sequences at 1 and no session, and satisfies the invariant |
| Api.Server.Signup | index.js:58-85 | the response and the new fields are those of the signup route, and the invariant is kept |
| Api.Server.Login | index.js:88-105 | the response and the new session are those of the login route, and the invariant is kept |
| Api.Server.Me | index.js:108-120 | the response is that of the `/me` route |
| Api.Server.Logout | index.js:123-128 | the response and the cleared session are those of the logout route, and the invariant is kept |
| Api.Server.ListItems | index.js:131-140 | the response is that of the list route |
| Api.Server.CreateItem | index.js:142-159 | the response and the new items and counter are those of the create route, and the invariant is kept |
| Api.Server.PatchItem | index.js:161-195 | the response and the new items are those of the PATCH route, and the invariant is kept |
| Api.Server.DeleteItem | index.js:197-210 | the response and the new items are those of the DELETE route, and the invariant is kept |
| Scenarios.SignedUp | index.js:58-85 | a first signup on a fresh server creates user 1 with the normalised address and logs it in |
| Scenarios.WithOneItem | index.js:142-159 | that user's first create stores row 1 with the trimmed name and the quantity |
| Scenarios.DuplicateSignupConflicts | index.js:78-81 | a second signup with the same address in another case and padding answers 409 |
| Scenarios.LoginToOnlyAccount | index.js:92-104 | with one account, its password logs in and a wrong password or an unknown address gets the one 401 |
| Scenarios.LoginAfterSignup | index.js:88-105 | after signup and logout, the password logs in again and both kinds of failure get the identical answer |
| Scenarios.LogoutEndsSession | index.js:123-131 | after logout, `/me` answers `{ user: null }` and `/items` answers 401 |
| Scenarios.PatchQuantityOfOnlyRow | index.js:174-194 | a quantity-only PATCH of a user's only row answers the row with the new quantity, the old name and a new `updated_at` |
| Scenarios.CreatedThenPatched | index.js:161-195 | create with quantity 3 and then PATCH the quantity to 5: the name survives |
| Scenarios.ItemLifecycle | index.js:197-210 | after delete, the user's list is empty |
| Scenarios.IntruderLoggedIn | index.js:58-85 | a second user signs up while the first user's row stays as it was |
| Scenarios.OthersRowIsNotFound | index.js:181-207 | another user's only row answers 404 to both PATCH and DELETE, and nothing changes |
| Scenarios.OtherUsersRowIsNotFound | index.js:161-210 | a second user can neither change nor delete the first user's row |
| Scenarios.OthersRowIsNotListed | index.js:131-139 | another user's only row is not in the list |
| Scenarios.OtherUsersRowIsNotListed | index.js:131-140 | a second user's list does not show the first user's row |

## Left out

- Express setup, `express.json`, CORS and `app.listen` (index.js:11-22, 212-214) are HTTP plumbing; the routes take their already-parsed inputs as parameters.
- The session store, the cookie attributes and the 7-day expiry (index.js:24-43) are left out. The session is one optional user id, and logout clears it.
- bcrypt is not modelled. A digest is an abstract value holding its salt, its cost and its secret. The random salt is a parameter, and `Verify` accepts exactly the hashed password. bcrypt's 72-byte truncation, by which two long passwords sharing a prefix verify alike, is therefore not modelled.
- Postgres, its pool and the schema are left out. `db.js` and the table definitions are not part of this model. The tables are sequences of rows.
  - The unique email, the primary keys and the owner's existence are invariants the model proves the handlers keep.
  - The id sequences are counters that advance only on a successful insert. A real sequence also consumes a value on an insert that fails, for example on the duplicate email. After such a failure the model's next id can be lower than the real one. Ids appear in the answers (index.js:77, 104, 119, 154-158, 182-194), so there the model's ids can differ from the ones the server sends. Which ids the model assigns is therefore exact only up to the ids skipped by failed inserts.
- `NOW()` and `created_at` are a `now` parameter. Each route takes it as an argument, in place of a clock.
- Tables.SortNewestFirst: it fixes one order among rows with equal `created_at`. Postgres may return ties in any order, so the contract promises only newest-first order and a permutation of the owned rows.
- The `/health` route (index.js:52-55) only reads the database clock.
- JavaScript coercion is outside the model. Each input reaches the model already coerced as the handler coerces it:
  - `String(x || "")` becomes a string;
  - `Number(...)` followed by `Number.isInteger` becomes an integer or "not an integer";
  - an absent optional field becomes `None`.

  So JSON `null` and non-string values are represented only by what the coercion makes of them.
- The 500 path is left out: a database error other than a duplicate email, and a quantity beyond the integer column's range. The duplicate email is found by a lookup, not by matching the driver's error message.
- Concurrency is left out: the model is sequential. Two simultaneous signups for one address, and the interleaving of session and table writes, are not modelled.
- Text.LowerCase: it lower-cases only A–Z and the Latin-1 capitals. JavaScript's `toLowerCase` also maps capitals in other scripts and some characters to more than one character.
- Text.Utf16Length: it counts UTF-16 code units of Unicode scalar values. A lone surrogate, which a JavaScript string can hold, is not a Dafny character.
