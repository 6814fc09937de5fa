# Authentication core of the Attendance-Management-System backend, in Dafny

This project models the authentication core of the attendance backend. It covers
two files:

- `Backend/app/security/authentication.py`: `create_access_token`,
  `create_refresh_token`, `verify_token` and `get_current_user`. This is claim
  copying, expiry arithmetic and the mapping from decode failure to `None` to 401.
- `Backend/app/api/auth.py`: the `register`, `login`, `refresh_token` and `get_me`
  routes over the credential store (the `User` table).

Modules, leaf first:

| file | module | what it is |
|---|---|---|
| `wrappers.dfy` | `Wrappers` | `Option` (Python's `Optional`) and `Result` (a response or a raised exception) |
| `exceptions.dfy` | `Exceptions` | `HTTPException(status, detail, headers)` and an escaping `KeyError` |
| `jwt.dfy` | `Jwt` | symbolic JSON Web Token codec (RFC 7519): claims, `Encode`, `Decode`, the "exp" check |
| `password_hasher.dfy` | `PasswordHasher` | symbolic bcrypt: `Hash(password, salt)`, `Verify(password, digest)` |
| `authentication.dfy` | `Authentication` | token creation, `VerifyToken`, `GetCurrentUser` |
| `user_store.dfy` | `UserStore` | the `User` record, the table value `Table` and the class `CredentialStore` |
| `auth_api.dfy` | `AuthApi` | `Register` (a method that changes the store), `Login`, `RefreshToken`, `GetMe` |

How the outside world becomes parameters:

- The clock `datetime.utcnow()` is the integer `now`, in epoch seconds.
  `timedelta(minutes=m)` is `m * 60` and `timedelta(days=d)` is `d * 86400`.
- `SECRET_KEY`, `ALGORITHM`, `ACCESS_TOKEN_EXPIRE_MINUTES` and
  `REFRESH_TOKEN_EXPIRE_DAYS` are the fields of `Authentication.Config`. They are
  fixed for the whole run.
- The random salt that bcrypt draws on each hash is the parameter `salt`.
- JWT signing is symbolic. A token is `Compact(alg, payload, Mac(key, alg, payload))`
  or arbitrary `Malformed` text. Only the holder of the key can build the signature
  term, and the term commits to the header algorithm and the whole payload. A bcrypt
  digest is the term `Bcrypt(salt, key)`. Its type differs from the plaintext
  `string`, and the hasher only compares a candidate against it. With these bodies,
  the two library laws are proved as lemmas: `verify(p, hash(p))` holds, and
  `decode(encode(c)) = c` while `c` is unexpired under the same key. Decoding
  anything else yields `None`.
- The library decides whether a token with `exp == now` is still valid, and the
  modelled code does not show that decision. The model makes it the parameter
  `Config.expiryBoundary` and proves every lemma for both choices.
  `AccessTokenLifetimeBounds` shows that only that one second depends on it.

Two behaviours of the code are proved as lemmas:

- A refresh token is exactly the access token the same claims would get if issued
  later (`RefreshTokenIsLaterAccessToken`). So a refresh token authenticates
  protected routes (`RefreshTokenAuthenticates`).
- `refresh_token` accepts an access token (`RefreshAcceptsAccessToken`).

One more follows from the model's structure rather than from a lemma.
`RefreshToken` and `GetMe` take no store parameter, so nothing they return depends
on whether the token's user still has a record. The model has no deletion, so this
stays an observation.

## Model

| member | source | states |
|---|---|---|
| `Jwt.Decode` | Backend/app/security/authentication.py:33 | a decoded payload is the token's own payload, and only for an allowed algorithm, a signature made with the key over that payload, and an accepted `exp` |
| `Jwt.Encode` | Backend/app/security/authentication.py:17 | the signed token decodes to exactly its claims under the same key and algorithm whenever their `exp` is accepted, and under no other key at any time |
| `Jwt.DecodeEncode` | Backend/app/security/authentication.py:17-33 | decoding an encoded claims set with the same key and algorithm gives back the claims exactly while their `exp` is accepted, and `None` after |
| `Jwt.DecodedTokensAreGenuine` | Backend/app/security/authentication.py:31-36 | every token that decodes under a key is the encoding of its payload with that key |
| `Jwt.DecodeRejectsOtherKey` | Backend/app/security/authentication.py:33-36 | a token signed with a different secret never decodes |
| `Jwt.DecodeRejectsTampered` | Backend/app/security/authentication.py:33-36 | changing a token's algorithm or payload while keeping its signature makes it undecodable |
| `Jwt.ExpiryBoundaryOnlyMattersAtExp` | Backend/app/security/authentication.py:33-36 | a claims set with `exp` is accepted before `exp` and rejected after it for both boundary choices, and at `exp` exactly under `ValidAtExp` |
| `PasswordHasher.Verify` | Backend/app/api/auth.py:55 | a digest verifies a password exactly when it is a derivation of that password under some salt, whichever salt was drawn |
| `PasswordHasher.Hash` | Backend/app/api/auth.py:40 | the digest verifies the password it was made from and no other candidate |
| `Authentication.WithExpiry` | Backend/app/security/authentication.py:14-16 | the claims to encode have the caller's keys plus `exp`; `exp` holds the computed expiry and overrides any caller-supplied one; every other key keeps its value |
| `Authentication.CreateAccessToken` | Backend/app/security/authentication.py:13-18 | the token is signed with the process's secret and algorithm, and its claims are the caller's claims plus `exp = now + ACCESS_TOKEN_EXPIRE_MINUTES*60` |
| `Authentication.CreateRefreshToken` | Backend/app/security/authentication.py:22-27 | the same with `exp = now + REFRESH_TOKEN_EXPIRE_DAYS*86400` |
| `Authentication.VerifyToken` | Backend/app/security/authentication.py:31-36 | returns a payload exactly for a token that is the encoding of that payload with the process's secret and algorithm and whose `exp` is accepted now; `None` for every other token, with no exception |
| `Authentication.AccessTokenRoundTrip` | Backend/app/security/authentication.py:13-34 | `verify_token(create_access_token(d))` at `later` is `d` with `exp = now + minutes*60` exactly while unexpired, else `None` |
| `Authentication.RefreshTokenRoundTrip` | Backend/app/security/authentication.py:22-34 | the same for refresh tokens, with `exp = now + days*86400` |
| `Authentication.RefreshTokenIsLaterAccessToken` | Backend/app/security/authentication.py:13-27 | a refresh token equals the access token of the same claims issued `refresh - access` seconds later; the two kinds differ only in `exp` |
| `Authentication.RefreshTokenAuthenticates` | Backend/app/security/authentication.py:22-48 | an unexpired refresh token passes `get_current_user`, which yields its claims |
| `Authentication.AccessTokenLifetimeBounds` | Backend/app/security/authentication.py:15-17 | an access token verifies one second before its expiry and not one second after; at the expiry second it verifies exactly under `ValidAtExp` |
| `Authentication.GetCurrentUser` | Backend/app/security/authentication.py:40-48 | fails exactly when `verify_token` gives `None`, with a 401 carrying `WWW-Authenticate: Bearer`; otherwise returns the payload unchanged |
| `UserStore.CredentialStore.FindByEmail` | Backend/app/api/auth.py:36 | finds a record exactly when one is stored under the email; in a well-formed store the record found carries the email searched for |
| `UserStore.CredentialStore.Add` | Backend/app/api/auth.py:41-44 | inserts one record with the next id under its email, returns it, and keeps the store well formed |
| `AuthApi.Register` | Backend/app/api/auth.py:32-46 | the new store and the response are those `RegisterOn` gives for the old store; on failure the store is unchanged |
| `AuthApi.RegisterOn` | Backend/app/api/auth.py:36-46 | fails exactly when the email is present, then with the 400 and the table unchanged; otherwise the table gains that email, its record's hash verifies the password, and the response carries the record's id |
| `AuthApi.RegisterRejectsDuplicate` | Backend/app/api/auth.py:36-38 | a registered email raises 400 "Email already registered" and the table is unchanged |
| `AuthApi.RegisterAddsOneRecord` | Backend/app/api/auth.py:40-46 | a fresh email adds exactly one record; it holds `hash(password)`, which verifies that password only; the response carries its id; other records are unchanged; the table stays well formed |
| `AuthApi.RegisterTwiceKeepsOneRecord` | Backend/app/api/auth.py:36-46 | registering one email twice: first succeeds, second raises 400, one record added in all |
| `AuthApi.RegisterStep` | Backend/app/api/auth.py:36-46 | any registration adds at most its own email and alters no existing record |
| `AuthApi.RegisterAllWellFormed` | Backend/app/api/auth.py:36-46 | over any sequence of registrations, each email has one record and ids stay distinct |
| `AuthApi.RegisterAllRecords` | Backend/app/api/auth.py:36-46 | over any sequence of registrations, the emails held are the initial ones plus the requested ones, and no record changes once created |
| `AuthApi.Login` | Backend/app/api/auth.py:50-66 | succeeds exactly when the email has a record whose hash verifies the password; any failure is the one 401 "Invalid email or password"; success has `token_type = "bearer"`; in a well-formed store both tokens are issued from `{"sub": input email}`; it only reads the store |
| `AuthApi.LoginFailureIsUniform` | Backend/app/api/auth.py:54-56 | an unknown email and a wrong password give identical results |
| `AuthApi.LoginTokensCarrySubject` | Backend/app/api/auth.py:58-66 | both login tokens verify to `{"sub": email, "exp": now + lifetime}` until their own expiry |
| `AuthApi.LoginAfterRegister` | Backend/app/api/auth.py:32-60 | after registering an email and password, logging in with them succeeds |
| `AuthApi.RefreshToken` | Backend/app/api/auth.py:70-79 | 401 "Invalid refresh token" exactly when verification fails or the payload is empty; `KeyError("sub")` exactly when a non-empty payload lacks `sub`; success is `bearer`; it takes no store |
| `AuthApi.RefreshPreservesSubject` | Backend/app/api/auth.py:74-79 | after a successful refresh, the new access token verifies to the presented token's `sub` with `exp = now + minutes*60` |
| `AuthApi.RefreshAfterLogin` | Backend/app/api/auth.py:58-79 | refreshing with a login's unexpired refresh token succeeds for the same email; the new expiry exceeds the login's access expiry by the elapsed time |
| `AuthApi.RefreshAcceptsAccessToken` | Backend/app/api/auth.py:74-78 | an unexpired access token is accepted by `refresh_token` as if it were a refresh token |
| `AuthApi.GetMe` | Backend/app/api/auth.py:83-87 | `{"user": claims}` with the claims exactly as `get_current_user` produced them, or its 401 |
| `AuthApi.MeAfterRegisterAndLogin` | Backend/app/api/auth.py:32-87 | register, login, then `/me` with the access token before it expires returns `{"user": {"sub": email, "exp": loginTime + lifetime}}` |

## Left out

- Cryptography: the HMAC and the bcrypt internals (cost factor, salt format, the `$2b$` text) are symbolic terms, not computed. Real collisions, including bcrypt's 72-byte truncation, are not modelled. So the "no other candidate verifies" clause of `PasswordHasher.Hash` is an idealisation.
- Wire format: base64url serialisation, the JWT header's `typ`, and the text of a compact token are not modelled. Any unparsable text is `Malformed`.
- JWT library claim checks other than `exp` are not modelled: `nbf`, `iat`, `aud`, `iss`, the type of `sub`, and `jti`. The library also coerces a non-numeric `exp` with `int()`; the model accepts only a numeric `exp`. Tokens this code issues always carry a numeric `exp` and only `sub` besides.
- Encode failures on claim values JSON cannot hold are not modelled. Claim values are JSON scalars only.
- The expiry boundary at `exp == now` is a parameter (`Jwt.ExpiryBoundary`), not a fixed choice. The library decides it, and the modelled code does not show it.
- Sub-second time: `utcnow()` has microseconds, and the token carries whole seconds. The model works in whole seconds. `login` reads the clock once per token; the model uses one `now` for both tokens.
- Token creation leaves the caller's dict unchanged because Dafny maps are values. `WithExpiry` returns a new map and the caller's one cannot change, so the property needs no separate lemma.
- HTTP routing and dependency injection are not modelled: `Depends`, `OAuth2PasswordBearer` reading the `Authorization` header (and its own 401 when the header is missing), request-body validation (`EmailStr`), and the 500 response the framework builds from an escaping `KeyError`.
- The check-then-insert race between two concurrent registrations of one email is left out. The model is sequential.
- Database faults (a failing commit, a lost connection) and the missing-configuration startup error are left out, as are `Backend/app/db/postgresql/repository.py`, `Backend/app/models/models.py`, `Backend/app/db/postgresql/db.py` and `Backend/app/app.py`. The `User` model that `auth.py` imports is not part of this model, so no uniqueness constraint on its table is visible. The model assumes one row per email (`UserStore.WellFormed`), and sequential registration preserves it (`AuthApi.RegisterAllWellFormed`).
- The user-interface files (`index.tsx`, `App.tsx`, `Navigation.tsx`) are not part of this model.
- Behaviour of the code worth noting:
  - `refresh_token` also rejects a verified but empty payload, which Python treats as false.
  - A payload without `sub` makes `refresh_token` raise `KeyError` rather than an invalid-token error.
  - Whether a token is still valid at `exp == now` is decided inside python-jose, not in this code, so it is the parameter `Jwt.ExpiryBoundary`.
