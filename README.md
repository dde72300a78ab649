# Authentication and session invalidation of the users service

A Dafny model of the authentication core of a NestJS users service:

- account operations on the user table (create, look up, update, delete);
- the two-step password reset (a time-boxed, single-use reset token);
- the credential check behind login, and login itself;
- logout, which revokes a token by putting it on an append-only blacklist;
- the bearer-token guard that every protected request passes through.

The store is abstract. The user table is a map from id to record with a unique email per row, and the blacklist is a sequence of `(token, expiresAt)` rows. bcrypt is a pair of functions, `hash` and `compare`, with the single law `compare(p, hash(p))`. The JWT service is a signer plus an unverified decoder. The lemmas about issued tokens also assume a well-behaved JWT service (`JwtService.Sound`): a signed token is non-empty and contains no whitespace, and decoding it gives back every claim it was signed with. The clock (`now`, in milliseconds) and the four random bytes of a reset token are parameters.

Files, one module each:

- `common.dfy`: JavaScript values, NestJS exceptions, `Result`.
- `crypto.dfy`: bcrypt, the JWT service and the hex encoding of the random bytes.
- `token_blacklist.dfy`: `TokenBlacklistService`.
- `users_service.dfy`: `UsersService`.
- `auth_service.dfy`: `AuthService`.
- `jwt_strategy.dfy`: `JwtStrategy.validate`, plus the token extraction passport-jwt runs before it.
- `sessions.dfy`: properties of the services working together.

The operations that write the tables are methods of `UsersService`, `TokenBlacklistService` and `AuthService`. They take `modifies` frames and state the whole new table in terms of the old one. The read-only operations are functions of the table:

- `findOne`, `findByEmail` and `validateUser`;
- `validateCredentials` and `login`;
- the guard, which only reads the blacklist.

Where the code does something a reader might not expect, the model follows the code:

- The guard throws a plain `Error`, not an authentication error, for a missing header and for a missing token.
- The rejection of a blacklisted token carries the text 'No authorization header'.
- Revoking a token twice adds a second row; membership is the same either way.
- `update` returns the whole updated record, password digest included.
- A password of `""` given to `update` is falsy. It is therefore stored as it is, not hashed.
- `validateUser` (users service) and `validateCredentials` (auth service) fail with different bodies: the text 'Invalid credentials' and the `{error, message}` object respectively. Each one is uniform across its own two failure paths.

## Model

| member | source | states |
|---|---|---|
| Crypto.Hex | src/users/users.service.ts:133 | the reset token has two lower-case hex digits per random byte, so four bytes give eight hex characters |
| Crypto.UnhexHex | src/users/users.service.ts:133 | decoding the hex string gives back the random bytes |
| Crypto.HexInjective | src/users/users.service.ts:133 | distinct random bytes give distinct reset tokens |
| TokenBlacklist.FindFirst | src/auth/token-blacklist.service.ts:17-21 | the result is the first row holding the token, or none when no row holds it |
| TokenBlacklist.TokenBlacklistService.AddToBlacklist | src/auth/token-blacklist.service.ts:8-15 | exactly one row `(token, expiresAt)` is appended, without deduplication; earlier rows are untouched and the token is blacklisted afterwards |
| TokenBlacklist.TokenBlacklistService.IsBlacklisted | src/auth/token-blacklist.service.ts:17-22 | true iff some row holds the token; `expiresAt` is never consulted |
| TokenBlacklist.ListedStaysListed | src/auth/token-blacklist.service.ts:5-23 | appending rows never takes a token off the list, so a revoked token stays revoked |
| UsersService.ExcludePassword | src/users/users.service.ts:173-176 | the projection shows exactly the record's id, email and name; its type has no field for the digest or the reset token |
| UsersService.ExcludePasswordHidesSecrets | src/users/users.service.ts:173-176 | the projection keeps id, email and name and changes with neither the digest nor the reset fields |
| UsersService.FindOne | src/users/users.service.ts:43-49 | an absent id fails with NotFound 'User not found'; a present id gives the projection of exactly that record |
| UsersService.FindByEmail | src/users/users.service.ts:51-53 | some record iff the email is in the table, and then the table's own record with that email |
| UsersService.ValidateUser | src/users/users.service.ts:112-124 | success iff the email is known and the password matches its digest, giving that user's projection; an unknown email and a wrong password both fail with the same Unauthorized 'Invalid credentials' |
| UsersService.Patched | src/users/users.service.ts:55-60 | a truthy new password is stored as its digest, an absent one keeps the old digest, `""` is stored as it is; the name is replaced when given; id, email and reset fields never change |
| UsersService.Redeemable | src/users/users.service.ts:148-152 | the store's filter: a record matches only when it holds exactly this token, and never without an expiry or at the expiry instant itself |
| UsersService.RedeemableEarlier | src/users/users.service.ts:151 | a token that matches now matched at every earlier instant, and one that has stopped matching never matches again |
| UsersService.Redeemed | src/users/users.service.ts:159-168 | after a reset the record holds the new digest and both reset fields are null; id, email and name are kept |
| UsersService.UsersService.Insert | src/users/users.service.ts:21-27 | a taken email is refused with P2002 and the table is unchanged; otherwise exactly one row with a fresh id and no reset token is added |
| UsersService.UsersService.Create | src/users/users.service.ts:17-36 | stores `hash(password)` and returns the projection; a taken email fails with Conflict 'Email already exists' and leaves the table unchanged |
| UsersService.UsersService.Update | src/users/users.service.ts:55-68 | an absent id propagates P2025 and nothing changes; otherwise only that row becomes the patched record, which is returned whole |
| UsersService.UsersService.Remove | src/users/users.service.ts:71-97 | an absent id gives `{false, 'User not found'}` and neither table changes; otherwise only that id is deleted, a truthy token is appended to the blacklist with expiry now + 3600000, and the result is `{true, 'User deleted successfully'}` |
| UsersService.UsersService.InitiatePasswordReset | src/users/users.service.ts:126-145 | the same message whether or not the email exists; an unknown email changes nothing; a known one changes only that user's reset token (hex of the random bytes) and expiry (now + 1 hour) |
| UsersService.UsersService.CompletePasswordReset | src/users/users.service.ts:147-171 | succeeds iff some user holds the token with expiry after now; that user alone gets the new digest and null reset fields, and the token has one holder fewer; otherwise BadRequest 'Invalid or expired token' and nothing changes |
| AuthService.WithoutPassword | src/auth/auth.service.ts:37 | the stripped record with the user's digest put back is the user exactly |
| AuthService.WithoutPasswordRemovesOnlyPassword | src/auth/auth.service.ts:37-40 | the stripped record plus the digest give back the user exactly; two users strip to the same record iff they differ at most in the password |
| AuthService.Rethrown | src/auth/auth.service.ts:41-52 | Unauthorized and BadRequest are rethrown unchanged; every other failure becomes Unauthorized `{error: 'Login failed', ...}` |
| AuthService.CheckCredentials | src/auth/auth.service.ts:16-53 | a failing lookup is mapped through the catch block; an unknown email and a wrong password give the identical Unauthorized body; success returns the record without its password |
| AuthService.ValidateCredentials | src/auth/auth.service.ts:16-40 | on the table: success iff the email is known and the password matches, returning that record minus only the password; every failure is the identical `{error: 'Invalid credentials', message: 'The email or password you entered is incorrect'}` |
| AuthService.Claims | src/auth/auth.service.ts:58-62 | the payload signed at login has exactly the keys `email`, `sub` and `name`, holding the user's email, id and name |
| AuthService.IssueSession | src/auth/auth.service.ts:57-74 | a failed credential check propagates unchanged and no token is signed; otherwise the token signs `{email, sub: id, name}` and the user view is `{id, email, name}` |
| AuthService.Login | src/auth/auth.service.ts:55-75 | success iff the credentials match a stored user; the token is signed over that user's `{email, sub, name}` and the view carries no password; failure is the identical credentials error |
| AuthService.AuthService.Logout | src/auth/auth.service.ts:78-84 | appends exactly one row `(token, exp * 1000)` taken from the token's own `exp` claim, after which the token is blacklisted; an undecodable token or a non-numeric `exp` fails and writes nothing |
| JwtStrategy.Split | src/auth/strategies/jwt.strategy.ts:29 | `split(' ')` gives at least one piece and no piece contains a space |
| JwtStrategy.SplitAtFirstSpace | src/auth/strategies/jwt.strategy.ts:29 | the first piece is everything before the first space |
| JwtStrategy.JoinSplit | src/auth/strategies/jwt.strategy.ts:29 | joining the pieces with single spaces gives the header back, so nothing is lost by splitting |
| JwtStrategy.SplitJoin | src/auth/strategies/jwt.strategy.ts:29 | space-free pieces joined by spaces split back into exactly those pieces |
| JwtStrategy.SecondPiece | src/auth/strategies/jwt.strategy.ts:29 | `split(' ')[1]` is undefined iff the header has no space, and it never contains a space |
| JwtStrategy.Principal | src/auth/strategies/jwt.strategy.ts:40-45 | the principal has the payload's keys plus `id` and `email`; every payload key wins, and `id` and `email` default to `payload.sub` and `payload.email` |
| JwtStrategy.Validate | src/auth/strategies/jwt.strategy.ts:22-46 | a missing or empty header fails with 'No authorization header'; an absent or empty second piece fails with 'No token provided'; a blacklisted token fails Unauthorized; otherwise the principal is returned; the blacklist is only read |
| JwtStrategy.BearerHeaderYieldsToken | src/auth/strategies/jwt.strategy.ts:29 | the header `Bearer <token>` yields exactly that token |
| JwtStrategy.DoubleSpaceGivesNoToken | src/auth/strategies/jwt.strategy.ts:29-32 | `Bearer  x` (two spaces) gives an empty token and is refused with 'No token provided' |
| JwtStrategy.SchemeAloneGivesNoToken | src/auth/strategies/jwt.strategy.ts:29-32 | `Bearer` alone has no second piece and is refused with 'No token provided' |
| JwtStrategy.RevokedTokenRefused | src/auth/strategies/jwt.strategy.ts:35-38 | whatever payload passed signature and expiry checks, a blacklisted token in a `Bearer <token>` header is refused as Unauthorized |
| JwtStrategy.PassportToken | src/auth/strategies/jwt.strategy.ts:15 | the token passport extracts is non-empty and contains no whitespace |
| JwtStrategy.PassportReadsWords | src/auth/strategies/jwt.strategy.ts:15 | passport reads the second word of a header made of two words and a whitespace gap, when the first word is `bearer` in any case |
| JwtStrategy.PassportReadsBearer | src/auth/strategies/jwt.strategy.ts:15 | passport reads the token from `Bearer`, any run of whitespace, then the token |
| JwtStrategy.RevokedTokenPassesSplitGuard | src/auth/strategies/jwt.strategy.ts:29-38 | with the header `Bearer \t<token>`, passport verifies the revoked token, yet the guard as written accepts the request |
| JwtStrategy.ValidateVerified | src/auth/strategies/jwt.strategy.ts:22-46 | the intended guard: it succeeds iff the token passport verified is not blacklisted, and then returns the principal |
| JwtStrategy.RevokedTokenRefusedEverywhere | src/auth/strategies/jwt.strategy.ts:35-38 | in the intended guard, any header from which passport reads a revoked token is refused as Unauthorized |
| JwtStrategy.GuardsAgreeOnBearer | src/auth/strategies/jwt.strategy.ts:15-38 | on a well-formed `Bearer <token>` header the guard as written and the intended guard give the same answer |
| Sessions.LoginAfterCreate | src/auth/auth.service.ts:16-71 | after create stores an account, login with the same email and password returns that account's view and a token signed over its claims |
| Sessions.LoginFailuresIndistinguishable | src/auth/auth.service.ts:20-35 | an unknown email and a wrong password for a known email give the very same login response |
| Sessions.GuardAcceptsIssuedToken | src/auth/strategies/jwt.strategy.ts:22-46 | a token issued by login and never revoked passes the guard, and the principal's `sub` and `email` are the user's |
| Sessions.LogoutEndsSession | src/auth/auth.service.ts:78-84 | after logout the guard refuses the header `Bearer <token>` for any payload, the intended guard refuses it from every header passport reads it from, and later rows do not undo it |
| Sessions.ResetWindow | src/users/users.service.ts:147-153 | a reset token issued at T is accepted at any time before T + 1 hour and refused at or after it |
| Sessions.NewPasswordWorksAfterReset | src/users/users.service.ts:159-168 | after a completed reset the new password validates for that account |
| Sessions.ResetTokenIsSingleUse | src/users/users.service.ts:126-171 | a token issued to one account resets its password once within the hour; a second use fails with 'Invalid or expired token' at any later instant, and the new password validates |

## Left out

- Database connection lifecycle, module wiring, controllers and HTTP routing are not part of this model. The logout route's own `split(' ')[1]` is the same extraction as the guard's.
- DTO validation is not modelled; `MinLength(6)` is not enforced and any string is accepted as a password.
- `findAll` is not part of the modelled core. It maps the projection over every row.
- bcrypt's salt and cost are not modelled. `hash` is a function of the password alone, and `compare` is constrained only by `compare(p, hash(p))`.
- Signing and signature or expiry verification of tokens are not modelled. `sign` is a deterministic function of the claims. The `iat` and `exp` claims it adds appear only through what `decode` returns. Passing passport's verification is assumed of every payload given to the guard.
- AuthService.Login: since `sign` ignores the clock, a user gets one and the same token at every login. In the model, a login after logout therefore returns the revoked token, and the guard refuses it. In the program, a login in a later second signs a fresh `iat` and gets a new token.
- `Date.now`, `new Date()` and `randomBytes(4)` are parameters: integer milliseconds, and four bytes.
- Dates are unbounded integers. JavaScript's date range limit is not modelled.
- The `console.log` and `console.error` calls are left out. These include the log of the digest and the plaintext password in `validateCredentials`, and of the reset token in `initiatePasswordReset`.
- UsersService.UsersService.Remove: the P2025 branch of its catch block is not modelled, and neither is the 'Failed to delete user' rethrow. The first needs a concurrent delete between the lookup and the delete; the second needs a store failure. The sequential in-memory table has neither.
- UsersService.UsersService.Create: store errors other than the duplicate email cannot arise in the in-memory table, so their rethrow is not modelled.
- AuthService.ValidateCredentials: on the in-memory table the lookup never fails. The 'Login failed' path is modelled by CheckCredentials, given a failed lookup.
- UsersService.UsersService.CompletePasswordReset: when several users hold the same unexpired token, the store's choice among them is unspecified. The model picks any one of them.
- Two concurrent completions with the same reset token are not modelled, since the model is sequential.
- AuthService.AuthService.Logout: JavaScript coerces a string-valued `exp` claim that is numeric to a number. The model treats every non-numeric `exp` as an Invalid Date instead. Fractional `exp` values are not modelled.
- UsersService.UsersService.Update: only the `password` and `name` keys of the request body are modelled. Other keys of an unvalidated body would be passed on to the store.
- `\s` in passport-jwt's pattern is modelled by its ASCII members and the no-break space. The other Unicode space characters are left out.
- Timing differences between an unknown email and a wrong password are not modelled.
- Expiry-based purging of blacklist rows is not modelled, because the code never purges them.

## Findings

| source | as written | input that shows it | evidently intended | confidence | as-written member | corrected member |
|---|---|---|---|---|---|---|
| src/auth/strategies/jwt.strategy.ts:29-38 | the blacklist is asked about `split(' ')[1]` of the header. That is not the token passport-jwt extracted and verified (line 15); passport splits on any run of whitespace | `Authorization: Bearer \t<T>`, where T is a valid, unexpired, logged-out token: passport verifies T, the blacklist is asked about `"\t" + T`, and the request is accepted | a revoked token is refused however the header spaces it, by checking the token that was verified | not executed; medium: depends on passport-jwt's header pattern `(\S+)\s+(\S+)` and on a tab surviving in the header value | JwtStrategy.RevokedTokenPassesSplitGuard | JwtStrategy.ValidateVerified |
