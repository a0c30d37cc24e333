# Authentication and user accounts of book-manager, in Dafny

This project models the authentication core of the book-manager service:

- how a request's bearer token becomes an authenticated principal (`Extractor`);
- the user repository, which creates users, changes their password or role, deletes them and looks them up (`UserRepository`);
- the conversion of a stored user row into a domain user (`UserModel`);
- the key and value wrappers under which a live access token sits in the key-value token store (`AuthModel`).

The stores are abstract. The relational `users` table, already joined with `roles`, is a `map` from user id to a record (`UserTable`). The `roles` table is the set of role names it holds. The token store is a `map` from key string to stored text. The bcrypt library is a pair of functions, `hash` and `verify` (`Bcrypt`). The one assumption made about it, `VerifiesOwnHash`, is that a password verifies against its own hash. A user id's display and parse (`IdFormat`) are also taken as given. The one assumption made about them, `ParseInvertsDisplay`, is that parsing inverts display.

Modules:

- `Kernel` (kernel.dfy): the shared types. These are `UserId`, `Role` with its stored name, `User`, `AccessToken` and the application error `AppError`.
- `UserModel` (user_model.dfy): `UserRow` and its conversion `ToUser`.
- `AuthModel` (auth_model.dfy): `AuthorizationKey`, `AuthorizedUserId` and their conversions. `ReadUserId` and `Store` show how a token is written and read back through these conversions.
- `UserRepository` (user_repository.dfy): the class `UserRepositoryImpl`, whose `users` field is the table. `Create`, `UpdatePassword`, `UpdateRole` and `Delete` change that field in place. The queries `FindCurrentUser` and `FindAll` and the hashing wrappers are functions.
- `Extractor` (extractor.dfy): `AuthorizedUser` with `Id` and `IsAdmin`, and the decision `FromRequestParts`. That decision takes the two repositories as lookup functions.

Some members only wrap or unwrap a value and carry no contract of their own. Their properties are stated by the contracts and lemmas named here:

- `Kernel.RoleName` models `Role::as_ref`, used at adapter/src/repository/user.rs:77 and :138. `Kernel.ParseRole` states that it is the inverse of parsing, and `Kernel.ParseRoleName` states the round trip.
- `AuthModel.AuthorizationKey.Inner` models `RedisKey::inner` (adapter/src/database/model/auth.rs:47-49). `AuthModel.KeyFromToken` and `AuthModel.FromCreateToken` state that it is exactly the token string.
- `AuthModel.AuthorizedUserId.Inner` models `RedisValue::inner` (adapter/src/database/model/auth.rs:53-55). `AuthModel.StoredValueReadsBack` states that decoding it gives the value back.
- `AuthModel.AuthorizedUserId.IntoInner` models `into_inner` (adapter/src/database/model/auth.rs:67-70). `AuthModel.FromCreateToken` and `AuthModel.TryFromString` state that it returns the wrapped id unchanged.
- `Extractor.AuthorizedUser.Id` and `Extractor.AuthorizedUser.IsAdmin` model api/src/extractor.rs:16-22. `Extractor.AuthorizeAgainstStores` states that `Id()` is the id the token resolved to. It also states that `IsAdmin()` holds exactly when the stored role is `Admin`.

The class invariant `Valid` holds the store's constraints: every row's role is in `roles`, and no two rows share an email. Every mutating method preserves it.

A few client methods show how the contracts combine. `DeleteTwice` shows that a second delete of the same id is `EntityNotFound`. `CreateThenAuthorize` shows that a freshly created user presenting a freshly stored token is a principal with that id, the default role and no administrator rights. `DeleteThenAuthorize` shows that a token which outlives its user's row is `UnauthenticatedError`.

The code reports a duplicate email or a colliding id as a generic store error (`SpecificOperationError`), because every store error becomes that variant. It has no separate duplicate-email error. The model follows the code. The rejection for a missing or unknown token is spelled `UnathorizedError`, as in the code.

## Model

| member | source | states |
|---|---|---|
| `Kernel.ParseRole` | adapter/src/database/model/user.rs:30 | A role name parses exactly when it is "User" or "Admin". A parsed role's stored name is the text that was parsed. |
| `Kernel.ParseRoleName` | adapter/src/repository/user.rs:66-77 | Parsing the name a role is stored under gives that role back. |
| `UserModel.ToUser` | adapter/src/database/model/user.rs:16-34 | Conversion succeeds exactly when the role name parses. On success it copies id, name and email and takes the role whose name was stored. Otherwise it fails with `ConversionEntityError`. |
| `UserModel.ToUserIgnoresTimestamps` | adapter/src/database/model/user.rs:19-25 | The result does not depend on `created_at` or `updated_at`. |
| `UserModel.ToUserKeepsFields` | adapter/src/database/model/user.rs:26-31 | Two rows that convert to the same user agree on id, name, email and role name. Only the timestamps are lost. |
| `AuthModel.FromCreateToken` | adapter/src/database/model/auth.rs:19-24 | The key holds the event's access token. The value holds the event's user id. Both are unchanged. |
| `AuthModel.KeyFromToken` | adapter/src/database/model/auth.rs:32-36 | The key's store string is the token string. |
| `AuthModel.TokenFromKey` | adapter/src/database/model/auth.rs:26-30 | The token string is the key's store string. |
| `AuthModel.TokenKeyRoundTrip` | adapter/src/database/model/auth.rs:26-36 | Going from token to key and back is the identity, and so is going from key to token and back. |
| `AuthModel.KeyFromTokenRef` | adapter/src/database/model/auth.rs:38-42 | Converting a borrowed token gives the same key as converting the owned token. |
| `AuthModel.TryFromString` | adapter/src/database/model/auth.rs:58-65 | Decoding succeeds exactly when the text parses as a user id, and then it wraps that id. Otherwise it fails with `ConversionEntityError`. |
| `AuthModel.StoredValueReadsBack` | adapter/src/database/model/auth.rs:52-65 | If parsing inverts display, decoding a value's stored text returns that value. |
| `AuthModel.ReadUserId` | adapter/src/database/model/auth.rs:44-71 | A token with no key in the store reads as `None`. A stored text that parses reads as its id. One that does not parse is `ConversionEntityError`. |
| `AuthModel.IssuedTokenResolves` | adapter/src/database/model/auth.rs:19-71 | After the key and value built from a token-creation event are stored, the token reads back as the event's user id. |
| `AuthModel.StoreKeepsOtherTokens` | adapter/src/database/model/auth.rs:44-56 | Storing one token does not change how any other token reads. |
| `UserRepository.HashPassword` | adapter/src/repository/user.rs:168-170 | Succeeds exactly when bcrypt hashes, and returns bcrypt's hash. A library failure becomes `BcryptError`. |
| `UserRepository.VerifyPassword` | adapter/src/repository/user.rs:172-178 | Succeeds exactly when bcrypt accepts the password. A mismatch is `UnauthenticatedError`, and a malformed hash is `BcryptError`. |
| `UserRepository.HashThenVerify` | adapter/src/repository/user.rs:168-178 | A password verifies against the hash `hash_password` made of it. |
| `UserRepository.FindCurrentUser` | adapter/src/repository/user.rs:25-43 | An unknown id is `Ok(None)`. A known id whose role parses gives the converted user, which carries that id. Otherwise the conversion error is returned. |
| `UserRepository.FindAll` | adapter/src/repository/user.rs:45-60 | Never fails and lists at most one user per row. |
| `UserRepository.FindAllOne` | adapter/src/repository/user.rs:58 | A single row contributes its user if it converts and nothing if it does not. |
| `UserRepository.FindAllAppend` | adapter/src/repository/user.rs:57-59 | Listing two runs of rows gives the first run's users followed by the second's, so row order is kept. |
| `UserRepository.FindAllMembers` | adapter/src/repository/user.rs:57-59 | A user is listed exactly when some row converts to it. |
| `UserRepository.FindAllKeepsConvertible` | adapter/src/repository/user.rs:57-59 | When every row converts, nothing is dropped. |
| `UserRepository.FindAllOfTable` | adapter/src/repository/user.rs:45-60 | Over a listing of the whole table (each row once), a user is listed exactly when `find_current_user` finds that user under its id. |
| `UserRepository.FindAllListsOnce` | adapter/src/repository/user.rs:45-60 | Over rows with distinct ids, and so over a listing of the table, no user is listed twice. |
| `UserRepository.FindAllNewestFirst` | adapter/src/repository/user.rs:49-58 | Over table rows in `created_at`-descending order, the listed users are in `created_at`-descending order too. |
| `UserRepository.UserRepositoryImpl.constructor` | adapter/src/repository/user.rs:18-21 | A repository over the given tables satisfies the store's constraints. |
| `UserRepository.UserRepositoryImpl.Create` | adapter/src/repository/user.rs:63-95 | The new user gets the fresh id, the event's name and email, and `Role::User`, and only that row is added. If hashing fails the result is `BcryptError`. A missing default role is `NoRowsAffectedError`. A taken id or email is a store error. On failure the table is unchanged. The new user is found again and their password verifies against the stored hash. |
| `UserRepository.UserRepositoryImpl.UpdatePassword` | adapter/src/repository/user.rs:97-128 | An unknown user is `SpecificOperationError`. A current password that does not verify returns the verification error and leaves the table unchanged. A new password bcrypt fails to hash is `BcryptError`, with the table unchanged. On success only that user's hash changes, to a hash the new password verifies against. |
| `UserRepository.UserRepositoryImpl.UpdateRole` | adapter/src/repository/user.rs:130-149 | An unknown user is `EntityNotFound` and leaves the table unchanged. On success only that user's role changes, and the user is then found with the new role. |
| `UserRepository.UserRepositoryImpl.Delete` | adapter/src/repository/user.rs:151-165 | An unknown user is `EntityNotFound` and leaves the table unchanged. On success exactly that row is removed. Afterwards the id is never found. |
| `Extractor.FromRequestParts` | api/src/extractor.rs:29-49 | A missing header is `UnathorizedError`, and so is an unresolved token. An id with no user is `UnauthenticatedError`. Errors from either lookup are passed on unchanged. Otherwise the result is a principal holding the presented token and the user found. |
| `Extractor.NoHeaderConsultsNothing` | api/src/extractor.rs:30-33 | Without a bearer token the result is `UnathorizedError`, whatever either repository would answer. |
| `Extractor.UnresolvedTokenSkipsUsers` | api/src/extractor.rs:36-40 | An unresolved token is `UnathorizedError`, whatever the user repository would answer. |
| `Extractor.PrincipalFromLookups` | api/src/extractor.rs:42-48 | A principal carries the presented token string and exactly the record the user lookup returned for the resolved id. |
| `Extractor.AuthorizeAgainstStores` | api/src/extractor.rs:15-48 | Against a token store and the users table, the principal's `Id()` is the id the token was stored under, and `IsAdmin()` holds exactly when the stored role is `Admin`. A token whose user row is gone is `UnauthenticatedError`, and an undecodable stored id is `ConversionEntityError`. |

## Left out

- Store transport failures are not modelled. This covers connection errors, failures to begin or commit a transaction (`TransactionError`), and query failures other than the constraint violations above. Each would only add an error path that leaves the table unchanged.
- Error messages are not modelled. Errors are compared by kind only.
- The bcrypt internals (salting, cost, timing) are left abstract. The salt is a parameter. The model does not claim that a different password fails to verify, because bcrypt only reads the first 72 bytes.
- `UserId::new()` (UUID generation) is the parameter `newId`. A colliding id is not ruled out; the store refuses it as a primary-key violation. The insert's `now()` timestamp is the parameter `now`.
- The kernel crate is not part of this model. The stored role names are taken to be "User" and "Admin". `UserId`'s display and parse are the abstract `IdFormat`.
- `update_role` with a role name missing from `roles`: the sub-select yields a null role reference. The model assumes the schema's NOT NULL constraint refuses it as a store error. The schema is not part of this model.
- `updated_at` maintenance by the store is not modelled. Updates leave both timestamps as they were.
- `find_all` takes the rows its query returns as a parameter. `ListsTable` says what that query returns. Among rows with equal `created_at` the order is unspecified.
- The auth repository (`fetch_user_id_from_token`, token issuing and deletion, TTL expiry) is not part of this model. The extractor takes the token lookup as a function. `ReadUserId` only shows how the key and value conversions compose for a store read.
- Parsing the axum `Authorization: Bearer` header is not modelled. Its outcome is the input `bearer: Option<string>`.
- `UserItem` in adapter/src/database/model/auth.rs is declared but used by no modelled operation.
- Asynchrony and concurrency are not modelled. Each operation is one atomic step on the tables.
