# Authentication core of yopta-template, modelled in Dafny

This project models the part of the yopta-template web application that decides who is authenticated, on both sides of the wire.

- **Backend gate** (`Middleware`): the Go middleware in front of the protected routes. It reads the `Authorization` header and applies the `Authorization: Bearer` scheme of section 2.1 of RFC 6750. The scheme check is stricter than that grammar only about spacing: exactly one space, and none inside the token. It accepts an empty token (`Bearer `) and characters outside `b64token`, and leaves those to the JWT library. The gate then hands the token over, keeps only the HMAC signing family, reads the numeric `user_id` claim into the request context, and calls the protected handler only if every check passed.
- **Backend handlers** (`AuthHandlers`, `UserHandlers`, over the `Accounts.UserTable` class): `Register`, `Login`, token issuance (`generateJWT`: HS256 tokens, section 3.2 of RFC 7518, carrying `user_id` and the `exp` claim of section 4.1.4 of RFC 7519), `GetProfile`, `ChangePassword` and `getUserIDFromContext`. Each handler is an early-return chain of checks. The model keeps the order of the checks, the status code and message of each exit, and the effect of each exit on the user table.
- **Frontend store** (`AuthStore`): a class with the fields `token`, `user`, `username` and `email`, plus the `'token'` slot of localStorage. Its actions are `setToken`, `clearToken`, `isTokenValid` and `setUser`.
- **Frontend router and HTTP client** (`Router`, `Api`): the route table, the router's own `isTokenValid`, the `beforeEach` guard, and the request interceptor that writes `Authorization: Bearer <token>`.
- **Cross-file properties** (`System`): the header the interceptor builds against the gate that parses it, and issued tokens against the gate and the handlers behind it.

Collaborators are parameters, not code. Each one is given only the properties the core relies on:

- `Inspection`, returned by `inspect: string -> Inspection`, is what the JWT library finds in a token string under the configured secret.
- `Issuer` holds `time.ParseDuration` and HS256 signing.
- `Hasher` holds bcrypt's generate and compare. `Bcrypt.Sound` is the law "a hash verifies its own password".
- `Decoder` is `jwtDecode`.
- The clocks (`time.Now` in nanoseconds, `Date.now` in milliseconds) are integer parameters.
- Database faults are boolean parameters.

Where the code differs from the system's documented design, the model follows the code:

- A duplicate username or email at registration is a 500, not a conflict.
- The password length checks count UTF-8 bytes (Go `len`), not characters. A six-letter Cyrillic password (12 bytes) is accepted.
- Registration is not all-or-nothing. If the id lookup or the token generation fails after the INSERT, the client gets a 500 but the new row stays.
- The gate does not require `user_id` to be non-negative.
- A malformed header, a missing header and a bad token are all 401. They differ only in the message text.

## Model

| member | source | states |
|---|---|---|
| Text.Split | backend/internal/middleware/auth.go:23 | `strings.Split(h, " ")` always yields at least one piece |
| Text.JoinSplit | backend/internal/middleware/auth.go:23 | joining the pieces with single spaces gives back the header |
| Text.SplitPiecesHaveNoSpace | backend/internal/middleware/auth.go:23 | no piece contains a space |
| Text.SplitCount | backend/internal/middleware/auth.go:23-24 | there is one piece more than there are spaces, so a double space gives three pieces |
| Text.SplitWithoutSpace | backend/internal/middleware/auth.go:23 | a space-free string is one piece |
| Text.SplitPair | backend/internal/middleware/auth.go:23-29 | two space-free words joined by one space split back into exactly those two words |
| Text.Lower | backend/internal/middleware/auth.go:24 | `strings.ToLower` keeps the length and lower-cases character by character |
| Text.LowerKeepsSpaces | backend/internal/middleware/auth.go:24 | lower-casing neither adds nor removes spaces |
| Text.ByteLength | backend/internal/handlers/auth.go:30 | Go `len` (here and in user.go:75) is the UTF-8 byte count, between one and four bytes per character, so 8 characters always pass the check |
| Text.ByteLengthAscii | backend/internal/handlers/auth.go:30 | for ASCII text `len` is the character count |
| Json.NumberAt | backend/internal/middleware/auth.go:46-47 | the claim lookup succeeds exactly when the key is present with a numeric value |
| Http.HeaderGet | backend/internal/middleware/auth.go:17 | `Header.Get` gives the value, or "" when the header is absent |
| Http.Error | backend/internal/middleware/auth.go:19 | `http.Error` writes the given status with the message as the body |
| Jwt.Parse | backend/internal/middleware/auth.go:31-42 | `jwt.Parse` succeeds iff the token decodes, the key function accepts its method, the signature matches and the claims are valid; it then returns the claims, and a rejection by the key function is its own error |
| Middleware.KeyFunc | backend/internal/middleware/auth.go:31-37 | the key function hands out the secret for the HMAC family only; every asymmetric family and the unsecured `none` method are refused |
| Middleware.SchemeToken | backend/internal/middleware/auth.go:23-29 | the token handed on never contains a space |
| Middleware.SchemeTokenIff | backend/internal/middleware/auth.go:23-29 | the scheme check yields `t` iff the header is six letters spelling `bearer` in any case, one space, then the space-free `t` (both directions) |
| Middleware.SchemeCaseInsensitive | backend/internal/middleware/auth.go:24-29 | `bearer T` and `BEARER T` both hand on exactly `T` |
| Middleware.Check | backend/internal/middleware/auth.go:17-58 | every rejection carries one of the four messages, and the missing-token message occurs iff the header is empty |
| Middleware.CheckAdmitsIff | backend/internal/middleware/auth.go:23-51 | the gate admits `id` iff the header is in bearer form, the library accepts the token (HMAC, signature, time claims) and the claims are a map with numeric `user_id` = `id` |
| Middleware.CheckRejections | backend/internal/middleware/auth.go:17-58 | each failure, described on the raw input, gives its own message: empty header, malformed scheme, library rejection, bad claims |
| Middleware.LibraryFailuresLookAlike | backend/internal/middleware/auth.go:31-42 | every library failure (undecodable, non-HMAC, bad signature, expired) gives the same 401 message |
| Middleware.Serve | backend/internal/middleware/auth.go:17-60 | the handler is called (once, on one request) iff the gate admits; that request carries `user_id` = the claim in its context and nothing else changes; a rejection is a 401 with the gate's message and no call |
| Middleware.MalformedHeadersRejected | backend/internal/middleware/auth.go:23-27 | `Basic xyz`, `Bearer a b` and `Bearer  x` (double space) are rejected as malformed |
| Middleware.EmptyTokenReachesLibrary | backend/internal/middleware/auth.go:23-31 | `Bearer ` passes the scheme check with the empty token, which goes to `jwt.Parse` instead of the malformed-format exit |
| Accounts.UserTable.Insert | backend/internal/handlers/auth.go:46-60 | the INSERT fails, leaving the table unchanged, iff there is a database fault or a uniqueness clash; otherwise exactly one row with a fresh id is added and that id is returned |
| Accounts.UserTable.SetPassword | backend/internal/handlers/user.go:91-99 | the UPDATE fails only on a fault; it changes only the password of row `id`, and an absent id changes nothing |
| AuthHandlers.ExpiresAt | backend/internal/handlers/auth.go:124-128 | `exp` is `now + duration` rounded down to whole Unix seconds |
| AuthHandlers.IssuedClaims | backend/internal/handlers/auth.go:126-129 | the claim set has exactly the keys `user_id` and `exp`; its `user_id` is the one the gate reads back and its `exp` is the given time |
| AuthHandlers.GenerateJwt | backend/internal/handlers/auth.go:119-137 | no token when the expiry string does not parse; otherwise the signature over `{user_id, exp = now + duration}` |
| AuthHandlers.RegisterReply | backend/internal/handlers/auth.go:56-73 | after the insert: 200 with the token for the new id iff the id lookup and the token both succeed, and 500 otherwise |
| AuthHandlers.Register | backend/internal/handlers/auth.go:21-74 | the check order is body 400, byte length < 8 400, hash 500, insert or duplicate 500; all of these leave the table unchanged; after the insert exactly one row with a fresh id is added and the token is issued for that id |
| AuthHandlers.Login | backend/internal/handlers/auth.go:77-116 | lookup by email only; an unknown email and a wrong password give the identical 401; a match with the right password gives a token for the stored id and the stored username |
| AuthHandlers.LoginReply | backend/internal/handlers/auth.go:104-115 | 200 with token and username iff a token was produced, otherwise 500 |
| AuthHandlers.RegisteredAccountLogsIn | backend/internal/handlers/auth.go:90-114 | a just-registered account logs in with its email and password and gets a token for its own id |
| UserHandlers.UserIdFromContext | backend/internal/handlers/user.go:107-118 | an id is returned iff the context holds an `int` under `user_id`, and it is that value |
| UserHandlers.GetProfile | backend/internal/handlers/user.go:18-37 | 401 without a context id, 404 when the id has no row, otherwise that row's id and username |
| UserHandlers.ChangePassword | backend/internal/handlers/user.go:45-104 | the checks run in order: id 401, body 400, row 404, old password 401 (so before the new length), new byte length 400, hash 500, update 500; every non-200 exit leaves the table unchanged; success changes only the caller's password, and the stored hash then verifies the new password |
| UserHandlers.ChangedPasswordLogsIn | backend/internal/handlers/user.go:81-95 | after a change, Login with the new password succeeds for the same account; Login with the old one fails unless the new hash also verifies it |
| AuthStore.Truthy | frontend/src/stores/auth.js:7 | a token value is truthy unless it is `null` or `""`, as the store's initial state, `!this.token`, the guard's `!token` and the interceptor's `if (token)` read it |
| AuthStore.Unexpired | frontend/src/stores/auth.js:33 | `decoded.exp * 1000 > Date.now()` on a millisecond clock holds exactly while the current whole second is before a numeric `exp` |
| AuthStore.Initial | frontend/src/stores/auth.js:6-11 | the token is the saved value if it is truthy (not null and not ""), else null; the other fields are null |
| AuthStore.AfterSetToken | frontend/src/stores/auth.js:13-21 | the token is set and saved, `user` becomes the decoded payload or null, and username and email are kept |
| AuthStore.AfterClear | frontend/src/stores/auth.js:22-28 | all four fields are null and the saved token is removed |
| AuthStore.AfterSetUser | frontend/src/stores/auth.js:38-41 | only `username` and `email` change |
| AuthStore.ClearIdempotent | frontend/src/stores/auth.js:22-28 | clearing twice equals clearing once, and equals the initial state with nothing saved |
| AuthStore.Store.constructor | frontend/src/stores/auth.js:6-11 | the new store's state is `Initial` of the saved token |
| AuthStore.Store.SetToken | frontend/src/stores/auth.js:13-21 | the store's fields and storage become `AfterSetToken` of the old state |
| AuthStore.Store.ClearToken | frontend/src/stores/auth.js:22-28 | the store's fields and storage become `AfterClear` of the old state |
| AuthStore.Store.IsTokenValid | frontend/src/stores/auth.js:29-37 | false without a truthy token, false when decoding throws, otherwise `exp*1000 > now` |
| AuthStore.Store.SetUser | frontend/src/stores/auth.js:38-41 | the store's fields become `AfterSetUser` of the old state |
| Router.RequiresAuth | frontend/src/router/index.js:47 | `to.meta.requiresAuth` from the route table; the login page the guard redirects to is never protected |
| Router.ProtectedRoutes | frontend/src/router/index.js:11-18 | exactly `first`, `second` and `profile` require authentication |
| Router.IsTokenValid | frontend/src/router/index.js:26-33 | true iff decoding succeeds and `exp*1000 > now` |
| Router.StoreAgreesWithRouter | frontend/src/router/index.js:26-33 | on a truthy token, the store's and the router's validity checks agree |
| Router.EffectiveToken | frontend/src/router/index.js:39-45 | the guard decides on the store's token if it is truthy, else on the saved one |
| Router.Guard | frontend/src/router/index.js:35-54 | the guard either proceeds or redirects to `login`, and a redirect leaves the store and the saved token cleared |
| Router.GuardRedirectsIff | frontend/src/router/index.js:47-51 | the guard redirects to `login` iff the route is protected and no truthy, unexpired token (the store's, else the saved one) is at hand |
| Router.GuardProceedState | frontend/src/router/index.js:39-53 | when the guard proceeds, the store is unchanged, except that a saved token is loaded through `setToken` when the store had none |
| Router.UnprotectedRoutesProceed | frontend/src/router/index.js:47-53 | routes other than the three protected ones always proceed |
| Router.BeforeEach | frontend/src/router/index.js:35-54 | the guard run on the live store produces exactly the state and decision of `Guard` |
| Api.BearerValue | frontend/src/services/api.js:16 | the value is `"Bearer "` followed by the token |
| Api.WithAuthorization | frontend/src/services/api.js:15-18 | with a truthy token, `Authorization` is the bearer value and every other header is untouched; with a falsy token nothing changes |
| Api.RequestInterceptor | frontend/src/services/api.js:13-19 | it returns the same config object, whose headers are now `WithAuthorization` of the old ones |
| System.InterceptorHeaderRoundTrip | frontend/src/services/api.js:16 | the interceptor's header passes the gate's scheme check and yields the original token exactly when the token has no space |
| System.IssuedTokenChecked | backend/internal/middleware/auth.go:29-54 | a token from `generateJWT`, sent as `Bearer <token>`, is admitted for its own user id before `exp` (or always, when `exp` is 0) and rejected as invalid afterwards |
| System.TokenLifetime | backend/internal/handlers/auth.go:120-128 | a token is honoured for at least its lifetime minus one second and never past its lifetime, so a one-second token checked two seconds later fails; a lifetime ending in the first second of the Unix epoch gives `exp` 0 and a token that never expires |
| System.AdmittedContextCarriesId | backend/internal/middleware/auth.go:51-54 | `getUserIDFromContext` in the handler reads back exactly the id the gate admitted |
| System.IssuedTokenOpensProfile | backend/internal/handlers/user.go:18-37 | a token issued for a stored account, attached by the interceptor and checked before expiry, gets through the gate and returns that account's profile |
| System.ExpiryTestsAgree | frontend/src/stores/auth.js:33 | the frontend's millisecond expiry test agrees with the library's nanosecond comparison at the same instant (the library's exemption for `exp` 0 excepted) |

## Left out

- `handlers.RefreshToken`: main.go routes to it, but its body is not part of this model. Refresh is therefore not modelled.
- backend/cmd/server/main.go: configuration loading, the MySQL connection, chi routing, CORS, logging, the server goroutine and graceful shutdown are left out. They are I/O and concurrency.
- frontend/src/main.js (application bootstrap) and the commented-out response interceptor in api.js (dead code) are left out.
- Cryptography and parsing are abstract: HS256 signing and signature checking, the library's expiry rule, JWT and JSON decoding (`Inspection`, `Decoder`, `Option` bodies), and bcrypt (`Hasher`). bcrypt's random salt is folded into the hash function, which the model treats as deterministic.
- The `float64` claim and its `int(...)` conversion: a numeric claim is held as an integer, so truncation and precision loss are not modelled.
- `int64` and `int` widths, `time.Time.Add` saturation and JavaScript number precision are not modelled. The model's integers are unbounded.
- Header canonicalisation, multiple values for one header, and axios's case-insensitive header object are left out. Headers are a map keyed by canonical names.
- SQL reads: a failing query behaves like a missing row, which is what the handlers do with any query error. Read-side database faults are not separate inputs. MySQL's auto-increment gaps after a failed INSERT are not modelled.
- Accounts.Taken: compares usernames and emails by exact string equality, and so does AuthHandlers.Login's lookup by email. MySQL's default collations compare case-insensitively, both in `WHERE email = ?` and in unique indexes. The collation belongs to the table schema, which is not part of this model.
- The JWT library's rules are assumed, not modelled: the expiry test `now < exp` in whole seconds, and a numeric `exp` of 0 treated as no expiry (`System.Coherent`). The library's source is not part of this model.
- Accounts.UserTable.Valid assumes unique indexes on `username` and `email`. The table schema is not part of this model.
- AuthHandlers.Login: requires emails to be unique (the table's invariant) so that the single-row `QueryRow` lookup is deterministic. With duplicate emails, SQL would return whichever row it finds first.
- Text.Lower: lower-cases ASCII only. Go's `strings.ToLower` lower-cases all of Unicode; the fact that no non-ASCII character lower-cases to a letter of `bearer` is not proved.
- The race between the read and the UPDATE in `ChangePassword` is left out (concurrency).
- HTTP writing is reduced to status and body: no `Content-Type`, and no trailing newline from `http.Error`.
- JavaScript type coercion in `exp * 1000`: an `exp` that is not a number (for example a numeric string) counts as failing the test. `setToken` is modelled with a string argument only. `null` and `undefined` are both `None`.
- vue-router's path resolution: the guard takes the target route's name, and a name outside the table has no `requiresAuth`.
- Pinia's reactivity and the store's singleton creation are left out. `useAuthStore()` is the one `Store` object passed in.
