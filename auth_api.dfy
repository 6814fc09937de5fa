/**
 * The authentication routes (Backend/app/api/auth.py): register, login, refresh and
 * "me", over the credential store and the token functions.
 *
 * `register` changes the store and is a method; `login` only reads it; `refresh_token`
 * and `get_me` take no store at all. Each route's result is the response body it
 * returns, or the exception it raises.
 */
module AuthApi {
  import opened Wrappers
  import opened Exceptions
  import opened PasswordHasher
  import opened UserStore
  import opened Authentication
  import Jwt

  datatype RegisterInput = RegisterInput(name: string, email: string, password: string)
  datatype LoginInput = LoginInput(email: string, password: string)
  datatype RefreshInput = RefreshInput(refreshToken: Jwt.Token)

  /** `{"message": ..., "user_id": ...}` */
  datatype Registered = Registered(message: string, userId: nat)
  /** `{"access_token": ..., "refresh_token": ..., "token_type": ...}` */
  datatype TokenPair = TokenPair(accessToken: Jwt.Token, refreshToken: Jwt.Token, tokenType: string)
  /** `{"access_token": ..., "token_type": ...}` */
  datatype AccessGrant = AccessGrant(accessToken: Jwt.Token, tokenType: string)
  /** `{"user": ...}` */
  datatype Me = Me(user: Jwt.Claims)

  const RegisteredMessage := "User registered successfully"
  const EmailAlreadyRegistered: Raised := HTTPException(400, "Email already registered", map[])
  const InvalidEmailOrPassword: Raised := HTTPException(401, "Invalid email or password", map[])
  const InvalidRefreshToken: Raised := HTTPException(401, "Invalid refresh token", map[])

  /** The claims `{"sub": email}` that both tokens of a login are issued from. */
  function SubjectClaims(email: string): Jwt.Claims {
    map["sub" := Jwt.Str(email)]
  }

  /* ------------------------------ register ------------------------------ */

  /**
   * What `register` does to a table: the new table and the response or exception.
   * It fails exactly when the email is already present, and then with the 400 and the
   * table unchanged; otherwise the table gains the email, whose record holds a hash
   * that verifies the password, and the response carries that record's id.
   */
  function RegisterOn(t: Table, input: RegisterInput, salt: nat): (outcome: (Table, Result<Registered, Raised>))
    ensures outcome.1.Failure? <==> input.email in t.users
    ensures outcome.1.Failure? ==> outcome == (t, Failure(EmailAlreadyRegistered))
    ensures outcome.1.Success? ==>
      && outcome.0.users.Keys == t.users.Keys + {input.email}
      && Verify(input.password, outcome.0.users[input.email].hashedPassword)
      && outcome.1.value == Registered(RegisteredMessage, outcome.0.users[input.email].id)
  {
    if input.email in t.users then
      (t, Failure(EmailAlreadyRegistered))
    else
      var user := User(t.nextId, input.name, input.email, Hash(input.password, salt));
      (Table(t.users[input.email := user], t.nextId + 1), Success(Registered(RegisteredMessage, user.id)))
  }

  /**
   * `register(input, db)`. `salt` is the randomness bcrypt draws while hashing.
   * A duplicate email raises 400 and leaves the store as it was.
   */
  method Register(db: CredentialStore, input: RegisterInput, salt: nat) returns (r: Result<Registered, Raised>)
    requires db.Valid()
    modifies db
    ensures db.Valid()
    ensures (db.Snapshot(), r) == RegisterOn(old(db.Snapshot()), input, salt)
    ensures r.Failure? ==> unchanged(db)
  {
    var existing := db.FindByEmail(input.email);
    if existing.Some? {
      return Failure(EmailAlreadyRegistered);
    }
    var hashedPassword := Hash(input.password, salt);
    var user := db.Add(input.name, input.email, hashedPassword);
    r := Success(Registered(RegisteredMessage, user.id));
  }

  /** Registering an email already in the table raises 400 "Email already registered" and inserts nothing. */
  lemma RegisterRejectsDuplicate(t: Table, input: RegisterInput, salt: nat)
    requires input.email in t.users
    ensures RegisterOn(t, input, salt) == (t, Failure(EmailAlreadyRegistered))
  {
  }

  /**
   * Registering a fresh email adds exactly one record, filed under that email, that
   * holds the hash of the password (which verifies it and no other password); the
   * response carries that record's id; every other record is unchanged; and the
   * table stays well formed.
   */
  lemma RegisterAddsOneRecord(t: Table, input: RegisterInput, salt: nat)
    requires WellFormed(t) && input.email !in t.users
    ensures var (t', r) := RegisterOn(t, input, salt);
      && WellFormed(t')
      && t'.users.Keys == t.users.Keys + {input.email}
      && |t'.users| == |t.users| + 1
      && t'.users[input.email].name == input.name
      && t'.users[input.email].hashedPassword == Hash(input.password, salt)
      && (forall p :: Verify(p, t'.users[input.email].hashedPassword) <==> p == input.password)
      && r == Success(Registered(RegisteredMessage, t'.users[input.email].id))
      && (forall e :: e in t.users ==> t'.users[e] == t.users[e])
  {
  }

  /** Registering the same email twice: the first call succeeds, the second raises 400, and one record was added. */
  lemma RegisterTwiceKeepsOneRecord(t: Table, input: RegisterInput, salt1: nat, salt2: nat)
    requires WellFormed(t) && input.email !in t.users
    ensures var (t1, r1) := RegisterOn(t, input, salt1);
      var (t2, r2) := RegisterOn(t1, input, salt2);
      && r1.Success? && r2 == Failure(EmailAlreadyRegistered)
      && t2 == t1 && |t2.users| == |t.users| + 1
  {
    RegisterAddsOneRecord(t, input, salt1);
  }

  /** One request to `register`, with the salt bcrypt drew for it. */
  datatype Registration = Registration(input: RegisterInput, salt: nat)

  /** The table after serving the requests one after another. */
  function RegisterAll(t: Table, requests: seq<Registration>): Table
    decreases |requests|
  {
    if requests == [] then t
    else RegisterAll(RegisterOn(t, requests[0].input, requests[0].salt).0, requests[1..])
  }

  /** The emails the requests ask to register. */
  function EmailsOf(requests: seq<Registration>): set<string>
    decreases |requests|
  {
    if requests == [] then {} else {requests[0].input.email} + EmailsOf(requests[1..])
  }

  /** One registration, successful or not, adds at most its own email and alters no existing record. */
  lemma RegisterStep(t: Table, input: RegisterInput, salt: nat)
    ensures var t' := RegisterOn(t, input, salt).0;
      && t'.users.Keys == t.users.Keys + {input.email}
      && (forall e :: e in t.users ==> t'.users[e] == t.users[e])
  {
  }

  /** Over any sequence of registrations the table stays well formed: one record per email, distinct ids. */
  lemma {:induction false} RegisterAllWellFormed(t: Table, requests: seq<Registration>)
    requires WellFormed(t)
    ensures WellFormed(RegisterAll(t, requests))
    decreases |requests|
  {
    if requests != [] {
      var r := requests[0];
      if r.input.email !in t.users {
        RegisterAddsOneRecord(t, r.input, r.salt);
      }
      RegisterAllWellFormed(RegisterOn(t, r.input, r.salt).0, requests[1..]);
    }
  }

  /**
   * Over any sequence of registrations the table ends up holding exactly the emails
   * it held plus the ones requested, and no record is altered once created.
   */
  lemma {:induction false} RegisterAllRecords(t: Table, requests: seq<Registration>)
    ensures RegisterAll(t, requests).users.Keys == t.users.Keys + EmailsOf(requests)
    ensures forall e :: e in t.users ==> RegisterAll(t, requests).users[e] == t.users[e]
    decreases |requests|
  {
    if requests != [] {
      var t1 := RegisterOn(t, requests[0].input, requests[0].salt).0;
      RegisterStep(t, requests[0].input, requests[0].salt);
      RegisterAllRecords(t1, requests[1..]);
    }
  }

  /* -------------------------------- login -------------------------------- */

  /**
   * `login(input, db)` at second `now`. It succeeds exactly when the email has a
   * record whose hash verifies the password, and otherwise raises the same 401
   * whichever of the two checks failed. On success both tokens are issued from
   * `{"sub": ...}` with the stored row's email, which in a well-formed store is the
   * email logged in with. It only reads the store.
   */
  function Login(db: CredentialStore, cfg: Config, input: LoginInput, now: int): (r: Result<TokenPair, Raised>)
    reads db
    ensures r.Success? <==> input.email in db.users && Verify(input.password, db.users[input.email].hashedPassword)
    ensures r.Failure? ==> r.error == InvalidEmailOrPassword
    ensures r.Success? ==> r.value.tokenType == "bearer"
    ensures db.Valid() && r.Success? ==>
      && r.value.accessToken == CreateAccessToken(cfg, SubjectClaims(input.email), now)
      && r.value.refreshToken == CreateRefreshToken(cfg, SubjectClaims(input.email), now)
  {
    var user := db.FindByEmail(input.email);
    if user.None? || !Verify(input.password, user.value.hashedPassword) then
      Failure(InvalidEmailOrPassword)
    else
      var userData := SubjectClaims(user.value.email);
      Success(TokenPair(CreateAccessToken(cfg, userData, now), CreateRefreshToken(cfg, userData, now), "bearer"))
  }

  /** An unknown email and a wrong password cannot be told apart from the response. */
  lemma LoginFailureIsUniform(unknown: CredentialStore, known: CredentialStore, cfg: Config, input: LoginInput, now: int)
    requires input.email !in unknown.users
    requires input.email in known.users && !Verify(input.password, known.users[input.email].hashedPassword)
    ensures Login(unknown, cfg, input, now) == Login(known, cfg, input, now) == Failure(InvalidEmailOrPassword)
  {
  }

  /**
   * Both tokens of a successful login carry `sub` = the email logged in with: each
   * verifies to `{"sub": email, "exp": now + lifetime}` until its own expiry.
   */
  lemma LoginTokensCarrySubject(db: CredentialStore, cfg: Config, input: LoginInput, now: int, later: int)
    requires db.Valid()
    requires Login(db, cfg, input, now).Success?
    ensures var tokens := Login(db, cfg, input, now).value;
      && VerifyToken(cfg, tokens.accessToken, later)
         == (if Jwt.Unexpired(cfg.expiryBoundary, now + AccessTokenLifetime(cfg), later)
             then Some(map["sub" := Jwt.Str(input.email), "exp" := Jwt.Num(now + AccessTokenLifetime(cfg))])
             else None)
      && VerifyToken(cfg, tokens.refreshToken, later)
         == (if Jwt.Unexpired(cfg.expiryBoundary, now + RefreshTokenLifetime(cfg), later)
             then Some(map["sub" := Jwt.Str(input.email), "exp" := Jwt.Num(now + RefreshTokenLifetime(cfg))])
             else None)
  {
    var userData := SubjectClaims(input.email);
    AccessTokenRoundTrip(cfg, userData, now, later);
    RefreshTokenRoundTrip(cfg, userData, now, later);
  }

  /** Register then login with the same email and password succeeds. */
  lemma LoginAfterRegister(t: Table, db: CredentialStore, cfg: Config, input: RegisterInput, salt: nat, now: int)
    requires WellFormed(t) && input.email !in t.users
    requires db.Snapshot() == RegisterOn(t, input, salt).0
    ensures Login(db, cfg, LoginInput(input.email, input.password), now).Success?
  {
    RegisterAddsOneRecord(t, input, salt);
  }

  /* ------------------------------- refresh ------------------------------- */

  /**
   * `refresh_token(input)` at second `now`. It has no store parameter. A token that
   * fails verification, or decodes to an empty payload (Python treats an empty dict as false), raises
   * 401; a payload without "sub" lets a `KeyError` escape; otherwise a new access
   * token is issued for the same "sub".
   */
  function RefreshToken(cfg: Config, input: RefreshInput, now: int): (r: Result<AccessGrant, Raised>)
    ensures var payload := VerifyToken(cfg, input.refreshToken, now);
      && (r == Failure(InvalidRefreshToken) <==> payload.None? || payload.value == map[])
      && (r == Failure(KeyError("sub")) <==> payload.Some? && payload.value != map[] && "sub" !in payload.value)
      && (r.Success? ==> r.value.tokenType == "bearer")
  {
    var payload := VerifyToken(cfg, input.refreshToken, now);
    if payload.None? || payload.value == map[] then
      Failure(InvalidRefreshToken)
    else if "sub" !in payload.value then
      Failure(KeyError("sub"))
    else
      Success(AccessGrant(CreateAccessToken(cfg, map["sub" := payload.value["sub"]], now), "bearer"))
  }

  /**
   * A successful refresh keeps the subject: the presented token verified with some
   * "sub", and the new access token verifies to exactly that "sub" with expiry
   * `now + AccessTokenLifetime` until then.
   */
  lemma RefreshPreservesSubject(cfg: Config, input: RefreshInput, now: int, later: int)
    requires RefreshToken(cfg, input, now).Success?
    ensures VerifyToken(cfg, input.refreshToken, now).Some?
    ensures "sub" in VerifyToken(cfg, input.refreshToken, now).value
    ensures var sub := VerifyToken(cfg, input.refreshToken, now).value["sub"];
      VerifyToken(cfg, RefreshToken(cfg, input, now).value.accessToken, later)
      == if Jwt.Unexpired(cfg.expiryBoundary, now + AccessTokenLifetime(cfg), later)
         then Some(map["sub" := sub, "exp" := Jwt.Num(now + AccessTokenLifetime(cfg))])
         else None
  {
    var payload := VerifyToken(cfg, input.refreshToken, now).value;
    AccessTokenRoundTrip(cfg, map["sub" := payload["sub"]], now, later);
  }

  /**
   * Refreshing with the refresh token of a login at `loginTime`, while it is
   * unexpired, yields an access token for the same email whose expiry is later than
   * the login's access token by exactly the time elapsed.
   */
  lemma RefreshAfterLogin(db: CredentialStore, cfg: Config, input: LoginInput, loginTime: int, refreshTime: int)
    requires db.Valid()
    requires Login(db, cfg, input, loginTime).Success?
    requires Jwt.Unexpired(cfg.expiryBoundary, loginTime + RefreshTokenLifetime(cfg), refreshTime)
    ensures var refreshed := RefreshToken(cfg, RefreshInput(Login(db, cfg, input, loginTime).value.refreshToken), refreshTime);
      && refreshed.Success?
      && refreshed.value.accessToken
         == CreateAccessToken(cfg, SubjectClaims(input.email), refreshTime)
      && refreshed.value.accessToken.payload["exp"].n
         == Login(db, cfg, input, loginTime).value.accessToken.payload["exp"].n + (refreshTime - loginTime)
  {
    LoginTokensCarrySubject(db, cfg, input, loginTime, refreshTime);
  }

  /**
   * Tokens carry no kind, so `refresh_token` also accepts an unexpired access token
   * and issues a new access token from it.
   */
  lemma RefreshAcceptsAccessToken(cfg: Config, data: Jwt.Claims, now: int, later: int)
    requires "sub" in data
    requires Jwt.Unexpired(cfg.expiryBoundary, now + AccessTokenLifetime(cfg), later)
    ensures RefreshToken(cfg, RefreshInput(CreateAccessToken(cfg, data, now)), later)
         == Success(AccessGrant(CreateAccessToken(cfg, map["sub" := data["sub"]], later), "bearer"))
  {
    AccessTokenRoundTrip(cfg, data, now, later);
  }

  /* --------------------------------- me --------------------------------- */

  /** `get_me(current_user)`: `{"user": claims}` with the claims `get_current_user` produced, or its 401. */
  function GetMe(cfg: Config, token: Jwt.Token, now: int): (r: Result<Me, Raised>)
    ensures r.Success? <==> GetCurrentUser(cfg, token, now).Success?
    ensures r.Success? ==> r.value.user == GetCurrentUser(cfg, token, now).value
    ensures r.Failure? ==> r.error == InvalidOrExpiredToken
  {
    match GetCurrentUser(cfg, token, now)
    case Success(currentUser) => Success(Me(currentUser))
    case Failure(e) => Failure(e)
  }

  /**
   * Register, login, then `GET /me` with the access token before it expires: the
   * response is `{"user": {"sub": email, "exp": loginTime + AccessTokenLifetime}}`.
   */
  lemma MeAfterRegisterAndLogin(t: Table, db: CredentialStore, cfg: Config, input: RegisterInput, salt: nat, loginTime: int, now: int)
    requires WellFormed(t) && input.email !in t.users
    requires db.Snapshot() == RegisterOn(t, input, salt).0
    requires Jwt.Unexpired(cfg.expiryBoundary, loginTime + AccessTokenLifetime(cfg), now)
    ensures var login := LoginInput(input.email, input.password);
      && Login(db, cfg, login, loginTime).Success?
      && GetMe(cfg, Login(db, cfg, login, loginTime).value.accessToken, now)
         == Success(Me(map["sub" := Jwt.Str(input.email), "exp" := Jwt.Num(loginTime + AccessTokenLifetime(cfg))]))
  {
    RegisterAddsOneRecord(t, input, salt);
    LoginTokensCarrySubject(db, cfg, LoginInput(input.email, input.password), loginTime, now);
  }
}
