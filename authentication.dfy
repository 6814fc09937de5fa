/**
 * Token issuance and verification (Backend/app/security/authentication.py).
 *
 * The clock (`datetime.utcnow()`) is the parameter `now`, in epoch seconds, and the
 * process-wide settings (`SECRET_KEY`, `ALGORITHM`, the two lifetimes) are a
 * `Config` value fixed for the life of the process.
 */
module Authentication {
  import opened Wrappers
  import opened Exceptions
  import Jwt

  /**
   * The settings the module imports. `expiryBoundary` is not an application
   * setting: it stands for the JWT library's decision at `exp == now`.
   */
  datatype Config = Config(
    secretKey: string,
    algorithm: string,
    accessTokenExpireMinutes: int,
    refreshTokenExpireDays: int,
    expiryBoundary: Jwt.ExpiryBoundary)

  /** What `get_current_user` raises for a token that does not verify. */
  const InvalidOrExpiredToken: Raised :=
    HTTPException(401, "Invalid or expired token", map["WWW-Authenticate" := "Bearer"])

  /** `timedelta(minutes=ACCESS_TOKEN_EXPIRE_MINUTES)`, in seconds. */
  function AccessTokenLifetime(cfg: Config): int {
    cfg.accessTokenExpireMinutes * 60
  }

  /** `timedelta(days=REFRESH_TOKEN_EXPIRE_DAYS)`, in seconds. */
  function RefreshTokenLifetime(cfg: Config): int {
    cfg.refreshTokenExpireDays * 86400
  }

  /**
   * The claims a token is encoded from: a copy of the caller's claims with "exp"
   * added, or overwritten when the caller supplied one.
   */
  function WithExpiry(data: Jwt.Claims, expire: int): (toEncode: Jwt.Claims)
    ensures toEncode.Keys == data.Keys + {"exp"}
    ensures toEncode["exp"] == Jwt.Num(expire)
    ensures toEncode - {"exp"} == data - {"exp"}
  {
    data["exp" := Jwt.Num(expire)]
  }

  /** Signs claims that already carry their expiry. */
  function Issue(cfg: Config, data: Jwt.Claims, expire: int): Jwt.Token {
    Jwt.Encode(WithExpiry(data, expire), cfg.secretKey, cfg.algorithm)
  }

  /**
   * `create_access_token(data)` at second `now`: a token signed with the process's
   * secret and algorithm whose claims are the caller's claims with
   * `exp = now + ACCESS_TOKEN_EXPIRE_MINUTES * 60`.
   */
  function CreateAccessToken(cfg: Config, data: Jwt.Claims, now: int): (token: Jwt.Token)
    ensures token.Compact? && token.alg == cfg.algorithm
    ensures token.payload == WithExpiry(data, now + cfg.accessTokenExpireMinutes * 60)
    ensures token.signature == Jwt.Sign(cfg.secretKey, cfg.algorithm, token.payload)
  {
    Issue(cfg, data, now + AccessTokenLifetime(cfg))
  }

  /**
   * `create_refresh_token(data)` at second `now`: a token signed with the process's
   * secret and algorithm whose claims are the caller's claims with
   * `exp = now + REFRESH_TOKEN_EXPIRE_DAYS * 86400`.
   */
  function CreateRefreshToken(cfg: Config, data: Jwt.Claims, now: int): (token: Jwt.Token)
    ensures token.Compact? && token.alg == cfg.algorithm
    ensures token.payload == WithExpiry(data, now + cfg.refreshTokenExpireDays * 86400)
    ensures token.signature == Jwt.Sign(cfg.secretKey, cfg.algorithm, token.payload)
  {
    Issue(cfg, data, now + RefreshTokenLifetime(cfg))
  }

  /**
   * `verify_token(token)` at second `now`: the decoded payload, or `None` for every
   * decoding error. It returns a payload exactly for a token that is the encoding of
   * that payload with the process's secret and algorithm and whose expiry is
   * accepted at `now`.
   */
  function VerifyToken(cfg: Config, token: Jwt.Token, now: int): (payload: Option<Jwt.Claims>)
    ensures payload.Some? ==> token == Jwt.Encode(payload.value, cfg.secretKey, cfg.algorithm)
    ensures payload.Some? ==> Jwt.ExpiryAccepts(payload.value, cfg.expiryBoundary, now)
    ensures (&& token.Compact?
             && token == Jwt.Encode(token.payload, cfg.secretKey, cfg.algorithm)
             && Jwt.ExpiryAccepts(token.payload, cfg.expiryBoundary, now))
            ==> payload == Some(token.payload)
  {
    Jwt.Decode(token, cfg.secretKey, [cfg.algorithm], cfg.expiryBoundary, now)
  }

  /**
   * `get_current_user(token)`: a 401 carrying `WWW-Authenticate: Bearer`
   * (section 3 of RFC 6750) exactly when the token does not verify, and the
   * payload unchanged otherwise.
   */
  function GetCurrentUser(cfg: Config, token: Jwt.Token, now: int): (r: Result<Jwt.Claims, Raised>)
    ensures r.Failure? <==> VerifyToken(cfg, token, now).None?
    ensures r.Failure? ==> r.error == InvalidOrExpiredToken
    ensures r.Failure? ==> r.error.statusCode == 401 && r.error.headers["WWW-Authenticate"] == "Bearer"
    ensures r.Success? ==> r.value == VerifyToken(cfg, token, now).value
  {
    var payload := VerifyToken(cfg, token, now);
    if payload.None? then Failure(InvalidOrExpiredToken) else Success(payload.value)
  }

  /**
   * Round trip for access tokens: verification at `later` returns the caller's claims
   * plus the computed expiry while that expiry has not passed, and `None` after.
   */
  lemma AccessTokenRoundTrip(cfg: Config, data: Jwt.Claims, now: int, later: int)
    ensures VerifyToken(cfg, CreateAccessToken(cfg, data, now), later)
         == if Jwt.Unexpired(cfg.expiryBoundary, now + AccessTokenLifetime(cfg), later)
            then Some(WithExpiry(data, now + AccessTokenLifetime(cfg)))
            else None
  {
    Jwt.DecodeEncode(WithExpiry(data, now + AccessTokenLifetime(cfg)), cfg.secretKey, cfg.algorithm, cfg.expiryBoundary, later);
  }

  /** Round trip for refresh tokens, with the refresh lifetime. */
  lemma RefreshTokenRoundTrip(cfg: Config, data: Jwt.Claims, now: int, later: int)
    ensures VerifyToken(cfg, CreateRefreshToken(cfg, data, now), later)
         == if Jwt.Unexpired(cfg.expiryBoundary, now + RefreshTokenLifetime(cfg), later)
            then Some(WithExpiry(data, now + RefreshTokenLifetime(cfg)))
            else None
  {
    Jwt.DecodeEncode(WithExpiry(data, now + RefreshTokenLifetime(cfg)), cfg.secretKey, cfg.algorithm, cfg.expiryBoundary, later);
  }

  /**
   * Access and refresh tokens have one shape: a refresh token is exactly the access
   * token the same claims would get if issued `RefreshTokenLifetime - AccessTokenLifetime`
   * seconds later. Nothing in a token says which kind it is.
   */
  lemma RefreshTokenIsLaterAccessToken(cfg: Config, data: Jwt.Claims, now: int)
    ensures CreateRefreshToken(cfg, data, now)
         == CreateAccessToken(cfg, data, now + RefreshTokenLifetime(cfg) - AccessTokenLifetime(cfg))
  {
  }

  /** Consequently a refresh token authenticates protected routes for as long as it is unexpired. */
  lemma RefreshTokenAuthenticates(cfg: Config, data: Jwt.Claims, now: int, later: int)
    requires Jwt.Unexpired(cfg.expiryBoundary, now + RefreshTokenLifetime(cfg), later)
    ensures GetCurrentUser(cfg, CreateRefreshToken(cfg, data, now), later)
         == Success(WithExpiry(data, now + RefreshTokenLifetime(cfg)))
  {
    RefreshTokenRoundTrip(cfg, data, now, later);
  }

  /**
   * Lifetime of an access token issued at `now`: accepted one second before its
   * expiry, rejected one second after, and at the expiry second itself accepted
   * exactly when the library counts that second as still valid.
   */
  lemma AccessTokenLifetimeBounds(cfg: Config, data: Jwt.Claims, now: int)
    ensures VerifyToken(cfg, CreateAccessToken(cfg, data, now), now + AccessTokenLifetime(cfg) - 1).Some?
    ensures VerifyToken(cfg, CreateAccessToken(cfg, data, now), now + AccessTokenLifetime(cfg) + 1).None?
    ensures VerifyToken(cfg, CreateAccessToken(cfg, data, now), now + AccessTokenLifetime(cfg)).Some?
        <==> cfg.expiryBoundary == Jwt.ValidAtExp
  {
    var exp := now + AccessTokenLifetime(cfg);
    AccessTokenRoundTrip(cfg, data, now, exp - 1);
    AccessTokenRoundTrip(cfg, data, now, exp + 1);
    AccessTokenRoundTrip(cfg, data, now, exp);
  }
}
