# Refresh-token lifecycle and authentication service, in Dafny

This project models the service layer of a small authentication server. That layer is two Spring services:

- `RefreshTokenService` issues and redeems refresh tokens.
- `AuthService` builds register, login and refresh on top of it.

The state is two stores:

- The **user table** maps an email to the user's encoded password. It is only read and inserted into.
- The **refresh-token store** maps a token value to its row: the owning user and the instant it expires.

The rules the model follows:

- **Issuing a token** (`create`) is a rotation. All of the user's rows are deleted, then one new row is saved under a freshly generated value. The new row expires 30 days after now.
- **Redeeming a value** (`getUserByValidRefreshToken`) has three outcomes:
  - an unknown value fails;
  - an expired value is deleted and then fails (lazy reaping). The model commits that delete; under the method's transaction the code as written rolls it back (see "## Findings");
  - any other value returns its owner and leaves the store alone.
- The expiry test is `expiresAt.isBefore(now)`. It is strict, so a token that expires exactly at `now` is still accepted.
- **Login** fails with one and the same `BadCredentials` error whether the email is unknown or the password is wrong.
- **Refresh** redeems the presented token, then issues a new pair. A refresh token can therefore be used only once.

Files and modules:

- `entities.dfy` (`Entities`): users, stored tokens, token pairs, the error kinds and the pluggable password encoder.
- `refresh_tokens.dfy` (`RefreshTokens`): the specification functions `Issue` and `Redeem`, with their lemmas. Also the class `RefreshTokenService`, whose field `tokens` is the store. Its methods update that field step by step and are proved equal to the specification functions.
- `auth.dfy` (`Auth`): the specification functions `RegisterStep`, `LoginStep`, `RefreshStep` and `IssueTokensStep`, with their lemmas. Also the class `AuthService`. It holds the user table as a field and refers to a shared `RefreshTokenService`.
- `sessions.dfy`:
  - `Sessions`: a sequence of requests, run one after another. It proves that any run keeps two invariants: at most one token per user, and every token belongs to a registered user. It also proves the whole life of one user's sessions.
  - `SessionsOnServices`: the same life of one user, driven through the service objects.

Generated values and outside services become inputs:

- Time is an explicit `now: nat`, counted in seconds.
- The random token value is an explicit `value` argument.
- The access-token signer is an opaque function `jwt: User -> string`.
- The password encoder is a pair of functions, `encode` and `matches`. The only assumption about them is `Sound`: `matches(p, encode(p))` for every `p`. It is stated as a precondition of the lemmas that need it.

Two details of the error and expiry behaviour:

- An unknown refresh token fails with the message "Invalid refresh token", but an expired one fails with "Refresh token expired". `GlobalExceptionHandler.handleInvalidRefreshToken` copies the message into the response body. So the two failures share an error kind, but a caller can tell them apart. `RedeemFailuresDifferInMessage` states this.
- A token is refused only when its expiry is strictly before `now`; at `now == expiresAt` it is still accepted (`ExpiryBoundary`).

## Model

| member | source | states |
|---|---|---|
| RefreshTokens.DeleteByUser | src/main/java/com/alexivashchenko/auth/service/service/RefreshTokenService.java:24 | deleting a user's rows removes exactly the keys that user owns and leaves every other row as it was |
| RefreshTokens.Issue | src/main/java/com/alexivashchenko/auth/service/service/RefreshTokenService.java:20-32 | after rotation the user owns exactly one token, the new value. It expires at now + 30 days. The user's earlier tokens are gone. With a fresh value, the key set is the old one minus the user's tokens plus the new value, and other users' rows are unchanged |
| RefreshTokens.Redeem | src/main/java/com/alexivashchenko/auth/service/service/RefreshTokenService.java:36-46 | success exactly when the value is stored and now <= expiresAt (equality accepted); success returns the owner and keeps the store; failure is InvalidRefreshToken and removes at most the presented row |
| RefreshTokens.RedeemAsCommitted | src/main/java/com/alexivashchenko/auth/service/service/RefreshTokenService.java:35-46 | as committed under the method's transaction: the result is Redeem's, and the store is never changed, because a failure's delete is rolled back |
| RefreshTokens.RollbackKeepsExpiredRow | src/main/java/com/alexivashchenko/auth/service/service/RefreshTokenService.java:35-46 | as committed, an expired row survives and a later redeem fails again as "expired"; under the intended reap it is gone and a replay fails as "not found" |
| RefreshTokens.IssueKeepsAtMostOnePerUser | src/main/java/com/alexivashchenko/auth/service/service/RefreshTokenService.java:24-31 | rotation keeps the invariant that no user owns two rows, whatever value is generated |
| RefreshTokens.IssueLeavesOtherUsers | src/main/java/com/alexivashchenko/auth/service/service/RefreshTokenService.java:24-31 | with a fresh value, every other user's set of tokens is the same before and after rotation |
| RefreshTokens.RedeemKeepsAtMostOnePerUser | src/main/java/com/alexivashchenko/auth/service/service/RefreshTokenService.java:37-45 | redeeming keeps the at-most-one-row-per-user invariant |
| RefreshTokens.RedeemFailureIsFinal | src/main/java/com/alexivashchenko/auth/service/service/RefreshTokenService.java:37-42 | after a failed redeem, redeeming the same value again at any time fails as "not found" and changes nothing |
| RefreshTokens.RedeemReapsExpired | src/main/java/com/alexivashchenko/auth/service/service/RefreshTokenService.java:40-42 | an expired row is deleted, that row only, and the call fails with the "expired" message |
| RefreshTokens.ExpiryBoundary | src/main/java/com/alexivashchenko/auth/service/service/RefreshTokenService.java:40 | a token is accepted at the instant it expires and refused one second later |
| RefreshTokens.RedeemFailuresDifferInMessage | src/main/java/com/alexivashchenko/auth/service/service/RefreshTokenService.java:37-42 | an unknown and an expired value both fail with InvalidRefreshToken, with different messages |
| RefreshTokens.RefreshTokenService.constructor | src/main/java/com/alexivashchenko/auth/service/service/RefreshTokenService.java:15-19 | the service starts over an empty store, which satisfies the invariant |
| RefreshTokens.RefreshTokenService.Create | src/main/java/com/alexivashchenko/auth/service/service/RefreshTokenService.java:22-33 | the new store is `Issue` of the old one. The returned string is the user's only token and expires 30 days after now. The invariant is kept |
| RefreshTokens.RefreshTokenService.GetUserByValidRefreshToken | src/main/java/com/alexivashchenko/auth/service/service/RefreshTokenService.java:35-46 | result and new store are `Redeem` of the old store; a successful call leaves the store unchanged; the invariant is kept |
| Auth.RegisterStep | src/main/java/com/alexivashchenko/auth/service/service/AuthService.java:24-34 | a known email fails with UserAlreadyExists and its message, and changes nothing. A new email adds exactly that one key, stored as `encode(password)`. Existing users keep their entries, and the token store is never touched |
| Auth.IssueTokensStep | src/main/java/com/alexivashchenko/auth/service/service/AuthService.java:54-58 | returns the user's access token and the new value. That value becomes the user's only refresh token, expiring 30 days after now, and the user's earlier tokens are gone. With a fresh value every other user's row is unchanged, and the new store is exactly `Issue`'s (rotation through `create`) |
| Auth.LoginStep | src/main/java/com/alexivashchenko/auth/service/service/AuthService.java:36-46 | fails exactly when the email is unknown or the password does not match. Both failures are the same BadCredentials error and leave the state unchanged. Success returns jwt(user) and the new value and rotates the user's tokens |
| Auth.RefreshStep | src/main/java/com/alexivashchenko/auth/service/service/AuthService.java:48-52 | succeeds exactly when the token is stored and not expired. A failure propagates redeem's error and redeem's store unchanged. A success issues a pair for the token's owner and rotates that owner's tokens |
| Auth.LoginFailuresMerged | src/main/java/com/alexivashchenko/auth/service/service/AuthService.java:38-42 | logging in with an unknown email and with a wrong password give identical outcomes: same error, same message, same unchanged state |
| Auth.LoginRotates | src/main/java/com/alexivashchenko/auth/service/service/AuthService.java:45-57 | after a successful login the returned refresh token is the user's only one, and any earlier token of that user can no longer be redeemed |
| Auth.RegisterThenLogin | src/main/java/com/alexivashchenko/auth/service/service/AuthService.java:29-45 | with a sound encoder, logging in right after registering with the same password succeeds and leaves the user exactly one token |
| Auth.RegisterThenWrongLogin | src/main/java/com/alexivashchenko/auth/service/service/AuthService.java:29-42 | after registering, logging in with any password the encoder does not match against the stored encoding fails with BadCredentials |
| Auth.RefreshIsSingleUse | src/main/java/com/alexivashchenko/auth/service/service/AuthService.java:48-58 | refreshing t0 returns a new t1 owned by the same user and removes t0. Refreshing t0 again fails as "not found" and changes nothing. Refreshing t1 succeeds throughout its 30-day lifetime |
| Auth.RefreshFailureIssuesNothing | src/main/java/com/alexivashchenko/auth/service/service/AuthService.java:50 | a failed refresh is InvalidRefreshToken, leaves the users alone and only removes the presented row, if it was there |
| Auth.AuthService.constructor | src/main/java/com/alexivashchenko/auth/service/service/AuthService.java:15-22 | the service starts with an empty user table over the given token service, encoder and signer |
| Auth.AuthService.Register | src/main/java/com/alexivashchenko/auth/service/service/AuthService.java:24-34 | result and new state are `RegisterStep` of the old state |
| Auth.AuthService.Login | src/main/java/com/alexivashchenko/auth/service/service/AuthService.java:36-46 | result and new state are `LoginStep` of the old state; the user table is not modified |
| Auth.AuthService.Refresh | src/main/java/com/alexivashchenko/auth/service/service/AuthService.java:48-52 | result and new state are `RefreshStep` of the old state |
| Auth.AuthService.IssueTokens | src/main/java/com/alexivashchenko/auth/service/service/AuthService.java:54-58 | the pair and the new store are `IssueTokensStep` of the old store |
| Sessions.Handle | src/main/java/com/alexivashchenko/auth/service/controller/AuthController.java:26-86 | each endpoint runs its service operation. Only register changes the user table, and it only adds to it. Register leaves the token store alone. Logout leaves the whole state unchanged, because it only clears the cookie |
| Sessions.HandleKeepsConsistent | src/main/java/com/alexivashchenko/auth/service/service/AuthService.java:24-58 | each of register, login, refresh and logout keeps two invariants: at most one token per user, and every token owned by the user the table holds |
| Sessions.RunKeepsConsistent | src/main/java/com/alexivashchenko/auth/service/service/AuthService.java:24-58 | any sequence of requests, with any clock readings and any generated values, keeps both invariants |
| Sessions.RunOnlyAddsUsers | src/main/java/com/alexivashchenko/auth/service/service/AuthService.java:29-33 | over any sequence of requests, no user is removed or changed |
| Sessions.LogoutKeepsTokenRedeemable | src/main/java/com/alexivashchenko/auth/service/controller/AuthController.java:74-86 | logout leaves the store alone, so a refresh token that could be redeemed before logout still can be after it |
| Sessions.UserLifecycle | src/main/java/com/alexivashchenko/auth/service/service/AuthService.java:24-58 | register, then login (r0), then refresh r0 into r1. Replaying r0 fails. A second login (r2) makes r1 fail and r2 succeed |

## Left out

- HTTP transport: routing, status codes, and building and clearing the refresh cookie. The model keeps only logout's effect on the store, which is none.
- Mapping exceptions to responses: an error datatype with the exception's message stands for it.
- Request validation (non-blank email and password, password length, email format): the framework checks these before the services run.
- Access-token signing: it is not part of this model. The signer is an opaque function of the user; the real token also depends on the time and a key.
- Password hashing: `encode` is a deterministic function here. The real encoder salts each call and compares in constant time. The model assumes only that a password matches its own encoding.
- Random token values: the generated UUID is an argument. Lemmas that need it to be new say so (`value !in store`).
- Issue, RefreshTokenService.Create: if the generated value equals a token another user holds, the model's map replaces that user's row with the new one. The source never hands a row to another user: saving the new entity would add a second row with that value or fail on a uniqueness constraint (the entity's mapping is not part of this model). Only `IssueLeavesOtherUsers` and the frame clauses of `Issue` speak about other users, and they assume a fresh value.
- The clock: each operation reads the time once, as `now`. The source reads the clock separately in redeem and in create, a moment apart; the model uses one reading for both. Instants are whole seconds and never negative.
- Transactions and concurrency: operations run one after another, and their effects are applied in the order the code writes them. Interleaved refreshes of the same user are not modelled. Rollback on an exception is not modelled, except in `RedeemAsCommitted`.
- Redeem, RefreshTokenService.GetUserByValidRefreshToken, RedeemReapsExpired, RedeemFailureIsFinal, Auth.RefreshStep, RefreshFailureIssuesNothing: these keep the delete of an expired row. As written, that delete is rolled back, because the exception leaves a transactional method. So the reap is the code's evident intent, not its committed effect; see "## Findings".
- User identity: the source's users have generated ids, and `deleteByUser` matches on the user entity. Here a user is its (email, encoded password) value. Users are never changed or deleted, so the two agree.
- Email lookup is an exact key lookup. Any case folding in the user repository's `findByEmail` is not part of this model.

## Findings

| source | as written | input that shows it | evidently intended | confidence | as-written member | corrected member |
|---|---|---|---|---|---|---|
| src/main/java/com/alexivashchenko/auth/service/service/RefreshTokenService.java:35-46 | the method is `@Transactional`. It deletes the expired row and then throws an unchecked `InvalidRefreshTokenException`. Spring rolls a transaction back on an unchecked exception, so the delete never commits | a stored row with `expiresAt < now`. The row stays, and every later redeem fails again with "Refresh token expired" | lazy reaping: the expired row is removed, and a replay fails as unknown | medium, not executed; rests on Spring's default rollback rule and on the exception being unchecked | RefreshTokens.RedeemAsCommitted, RefreshTokens.RollbackKeepsExpiredRow | RefreshTokens.Redeem, RefreshTokens.RedeemReapsExpired, RefreshTokens.RedeemFailureIsFinal |
