# Account state machine and product catalogue, in Dafny

This project models the core of a small authentication and product-catalogue
backend:

- the **users service**: local signup with a hashed password and an email
  confirmation token, Google create-or-link, one-shot email confirmation, the
  password-reset token lifecycle, and profile update, all over the users table;
- the **auth service**: signup, login, email confirmation, forgot/reset
  password and Google login, layered on the users service, a password checker
  and a session-token issuer;
- the **products service**: create, list, fetch, merge-update and delete over
  the product table.

Layout:

- `common.dfy` (`Common`): `Option`, the service errors, `Result`.
- `user_table.dfy` (`UserTable`): the `User` record, the table as a sequence of
  rows (row i has id i + 1), the table invariant (`Valid`: ids follow row order,
  emails unique, googleIds unique), the repository lookup `Find` (first matching
  row), every users-service operation as a function from the old table to a
  `Step` (result and new table), and lemmas relating several calls.
- `users.dfy` (`Users`): class `UsersService` with a mutable `users` field and
  the hasher as a constant; each method looks a row up, updates the record and
  saves it, and is proved equal to the matching `UserTable` function.
- `auth_flow.dfy` (`AuthFlow`): the auth-service decisions as functions of the
  table (projections, login guards, the one-hour expiry, the fullName default)
  and lemmas about sequences of calls.
- `auth.dfy` (`Auth`): class `AuthService` over a `UsersService`, proved equal
  to the `AuthFlow` functions.
- `products.dfy` (`Products`): class `ProductsService` over a map from id to
  product and an auto-increment counter.

Abstract inputs: the password hasher is a function `hash: string -> string`
held by the users service, the password check is a relation
`verify(password, hash)` and the token signer a function `issue(payload)`, both
held by the auth service. Random tokens and the current time (milliseconds) are
method parameters.

The model keeps three details of the code:

- a reset token whose expiry equals the current time is still accepted
  (src/users/users.service.ts:79 rejects only `expiry < now`);
- the Google-login name defaults to the email when the given name is absent
  *or empty* (src/auth/auth.service.ts:78 uses `||`);
- login rejects an empty stored hash as well as an absent one
  (src/auth/auth.service.ts:34 tests falsiness).

## Model

| member | source | states |
|---|---|---|
| UserTable.Find | src/users/users.service.ts:35-40 | the repository lookup by one column (email, googleId, confirm token or reset token; also used at lines 16, 55 and 75): returns the index of the first matching row, and nothing exactly when no row matches |
| UserTable.FindByEmail | src/users/users.service.ts:90-92 | returns a user exactly when some row has the email; it is that (first) row; under the invariant its id locates it in the table |
| UserTable.FindById | src/users/users.service.ts:94-96 | under the invariant, returns a user exactly when some row has the id, and it is that row |
| UserTable.CreateLocalUser | src/users/users.service.ts:12-28 | a taken email fails with EmailInUse and leaves the table unchanged; otherwise exactly one row is appended with the next id, the email, name and confirm token, hash(password), unconfirmed, no googleId or reset fields; the invariant (unique emails and googleIds) is preserved |
| UserTable.CreateGoogleUser | src/users/users.service.ts:30-52 | a user already holding the googleId is returned with the table unchanged; else the user with the email gets the googleId and is confirmed, nothing else changes; else one confirmed row without a password is appended; the result always holds the googleId; the invariant is preserved |
| UserTable.MarkEmailConfirmed | src/users/users.service.ts:54-62 | an unknown token fails with InvalidToken and changes nothing; otherwise the first holder becomes confirmed and loses the token, no other row changes; the invariant is preserved |
| UserTable.SetResetPasswordToken | src/users/users.service.ts:64-72 | the given stored user gets the token and expiry, its other fields and every other row are unchanged; the invariant is preserved |
| UserTable.ResetPassword | src/users/users.service.ts:74-88 | succeeds exactly when the first holder of the token has an expiry not before now; failure is InvalidOrExpiredToken with no change; success replaces that user's hash with hash(newPassword) and clears token and expiry together, nothing else changes |
| UserTable.Update | src/users/users.service.ts:98-107 | under the invariant, fails with UserNotFound exactly when no row has the id, with no change; otherwise only that user's fullName may change, and only when one is given |
| UserTable.GoogleLoginIdempotent | src/users/users.service.ts:30-52 | a second createGoogleUser with the same googleId returns the first call's user and leaves the table as the first call left it, whatever email and name it carries |
| UserTable.ConfirmIsSingleUse | src/users/users.service.ts:54-62 | when at most one user holds a confirm token, confirming twice with it fails the second time with InvalidToken and no change |
| UserTable.ResetIsSingleUse | src/users/users.service.ts:74-88 | when at most one user holds a reset token, a second reset with it fails with InvalidOrExpiredToken at any time and with any password |
| UserTable.ResetTokenWindow | src/users/users.service.ts:64-88 | after a token and expiry are stamped on a user no earlier row shares the token with, a reset with that token succeeds exactly when now is at most the expiry |
| Users.UsersService.constructor | src/users/users.service.ts:10 | the service starts over a given table that satisfies the invariant |
| Users.UsersService.FindByEmail | src/users/users.service.ts:90-92 | returns what UserTable.FindByEmail gives for the current table |
| Users.UsersService.FindById | src/users/users.service.ts:94-96 | returns what UserTable.FindById gives for the current table |
| Users.UsersService.CreateLocalUser | src/users/users.service.ts:12-28 | result and new table are those of UserTable.CreateLocalUser on the old table; the invariant is kept |
| Users.UsersService.CreateGoogleUser | src/users/users.service.ts:30-52 | result and new table are those of UserTable.CreateGoogleUser on the old table; the invariant is kept |
| Users.UsersService.MarkEmailConfirmed | src/users/users.service.ts:54-62 | result and new table are those of UserTable.MarkEmailConfirmed on the old table; the invariant is kept |
| Users.UsersService.SetResetPasswordToken | src/users/users.service.ts:64-72 | the new table is UserTable.SetResetPasswordToken of the old one and the saved record is the stamped row |
| Users.UsersService.ResetPassword | src/users/users.service.ts:74-88 | result and new table are those of UserTable.ResetPassword on the old table at time now; the invariant is kept |
| Users.UsersService.Update | src/users/users.service.ts:98-107 | result and new table are those of UserTable.Update on the old table; the invariant is kept |
| AuthFlow.Signup | src/auth/auth.service.ts:17-30 | fails with EmailInUse exactly when the email is taken; on success returns just id, email and fullName of the new user (id is the next id); the table is createLocalUser's |
| AuthFlow.Login | src/auth/auth.service.ts:32-46 | every failure is InvalidCredentials; an unknown email fails; succeeds exactly when the user with the email has a non-empty hash that verifies against the password, and then returns the token issued for that user's id and email |
| AuthFlow.ConfirmEmail | src/auth/auth.service.ts:48-57 | fails with InvalidToken exactly when no user holds the token; on success reports the token holder's id and email as confirmed; the table is markEmailConfirmed's |
| AuthFlow.ForgotPassword | src/auth/auth.service.ts:59-67 | an unknown email leaves the table unchanged and nothing fails; otherwise only that user changes: reset token set and expiry = now + 3 600 000 ms; the invariant is preserved |
| AuthFlow.ResetPassword | src/auth/auth.service.ts:69-75 | succeeds exactly when the users-service reset does, failing only with InvalidOrExpiredToken; on success reports the token holder's id and email; the table is the users-service reset's |
| AuthFlow.GoogleFullName | src/auth/auth.service.ts:78 | the recorded name is the email when the given name is absent or empty, and the given name otherwise |
| AuthFlow.LoginWithGoogle | src/auth/auth.service.ts:77-89 | never fails; the table is createGoogleUser's with the defaulted name; the token is issued for the id and email of the user holding the googleId afterwards |
| AuthFlow.SignupTwiceFails | src/auth/auth.service.ts:17-30 | a second signup with the same email fails with EmailInUse and changes nothing |
| AuthFlow.LoginAfterSignup | src/auth/auth.service.ts:17-46 | after signup with a fresh email, login with the same password succeeds with the token for the new id, when the checker accepts the hash of that password |
| AuthFlow.GoogleOnlyAccountRejectsPasswords | src/auth/auth.service.ts:32-40 | an account created by Google login rejects local login with every password |
| AuthFlow.LoginAfterReset | src/auth/auth.service.ts:69-75 | after a successful reset, login with the reset account's email and the new password succeeds with that account's token |
| AuthFlow.ResetWindowIsOneHour | src/auth/auth.service.ts:59-67 | a token issued by forgotPassword at time T (held by no other account) resets the password at time now exactly when now <= T + 3 600 000 |
| AuthFlow.GoogleLoginTwice | src/auth/auth.service.ts:77-95 | repeating a Google login (or signup) with the same googleId issues the same token and leaves the table unchanged |
| Auth.AuthService.constructor | src/auth/auth.service.ts:12-15 | the service holds the given users service, checker and issuer |
| Auth.AuthService.Signup | src/auth/auth.service.ts:17-30 | result and new table are those of AuthFlow.Signup on the old table; the invariant is kept |
| Auth.AuthService.Login | src/auth/auth.service.ts:32-46 | returns AuthFlow.Login of the current table; changes nothing |
| Auth.AuthService.ConfirmEmail | src/auth/auth.service.ts:48-57 | result and new table are those of AuthFlow.ConfirmEmail on the old table |
| Auth.AuthService.ForgotPassword | src/auth/auth.service.ts:59-67 | the new table is AuthFlow.ForgotPassword of the old one |
| Auth.AuthService.ResetPassword | src/auth/auth.service.ts:69-75 | result and new table are those of AuthFlow.ResetPassword on the old table |
| Auth.AuthService.LoginWithGoogle | src/auth/auth.service.ts:77-89 | result and new table are those of AuthFlow.LoginWithGoogle on the old table |
| Auth.AuthService.SignupWithGoogle | src/auth/auth.service.ts:91-95 | has exactly the result and state effect of loginWithGoogle |
| Products.Merge | src/products/products.service.ts:34 | the merged record keeps its id, has the union of attributes, takes the dto's value where the dto has one and keeps the old value elsewhere |
| Products.ProductsService.constructor | src/products/products.service.ts:10-13 | the service wraps a given product table and next id that satisfy the invariant (every record under its own id, ids below the next id) |
| Products.ProductsService.Create | src/products/products.service.ts:15-18 | adds exactly one record under a fresh id with the dto's attributes; existing records are unchanged |
| Products.ProductsService.FindAll | src/products/products.service.ts:20-22 | returns every stored record and nothing else, each once (ordered by id) |
| Products.ProductsService.FindOne | src/products/products.service.ts:24-30 | returns the record with the id, or fails with ProductNotFound when there is none; changes nothing |
| Products.ProductsService.Update | src/products/products.service.ts:32-36 | an unknown id fails with ProductNotFound and changes nothing; otherwise only that record changes, to the merge of it with the dto |
| Products.ProductsService.Remove | src/products/products.service.ts:38-41 | an unknown id fails with ProductNotFound and changes nothing; otherwise exactly that record is deleted |

## Left out

- Password hashing: bcrypt with a fresh salt and cost factor 10 is modelled as one fixed, arbitrary function `hash`; salting (two hashes of one password differing) is not modelled, and `verify` is an arbitrary relation, so properties about logging in assume the checker accepts the hash of the right password.
- Token generation (32 random bytes rendered as 64 hex characters): tokens are parameters; their format and their practical uniqueness are not modelled, so the single-use lemmas assume at most one user holds the token.
- JWT signing: an arbitrary function from the payload (subject id, email) to a string.
- The clock: `now` is an integer-millisecond parameter; `Date` objects are integers.
- The TypeORM repository: the users table is an in-memory sequence (ids are row numbers; users are never deleted) and the product table a map with an auto-increment counter; lookups return the first matching row. Database unique constraints, query execution and id generation are not modelled; uniqueness of email and googleId is an invariant the service operations are proved to keep.
- Asynchrony and concurrency: every call runs to completion alone; the race between the email check and the insert is not modelled.
- HTTP exceptions and NestJS wiring: exceptions become the named `Error` values of a `Result`.
- Users.UsersService.SetResetPasswordToken: requires the passed user to be the stored record; the source saves whatever object it is given, so a stale copy would also overwrite other columns, which the model does not capture.
- UserTable.Update: an explicit `null` fullName in the update DTO (which the source would store) is not distinguished from an absent one.
- Product attributes: the product entity and its DTOs are not part of this model; a product is its id plus a map of named attribute values, and a DTO is such a map (no `id` key).
- Products.ProductsService.FindAll: the source leaves the order to the store; the model returns records in id order.
