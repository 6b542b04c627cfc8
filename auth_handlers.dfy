/** The auth service's command handlers: register, login, refresh and logout.
    Each handler is a class over the credential repository, the user service it
    calls over gRPC, the password hasher and the token service. Each `Execute`
    is proved equal to a function of the stores it reads and writes; the
    lemmas that follow are about those functions. */
module AuthHandlers {
  import opened Common
  import opened Exceptions
  import opened Responses
  import opened Text
  import Email
  import Password
  import opened AuthDomain
  import AuthPersistence
  import UserPersistence
  import UserDomain
  import opened UserApplication
  import opened Ports

  /** What a handler returns, and the credential and user collections after it. */
  datatype Outcome<T> = Outcome(result: Result<T, Failure>, creds: AuthPersistence.AuthDocs, users: UserPersistence.UserDocs)

  /** The register and login payload. */
  datatype Session = Session(accessToken: string, refreshToken: string, user: CreatedUser)

  /** The refresh payload. */
  datatype TokenPair = TokenPair(accessToken: string, refreshToken: string)

  ghost predicate StoresValid(creds: AuthPersistence.AuthDocs, users: UserPersistence.UserDocs) {
    AuthPersistence.UniqueEmails(creds) && UserPersistence.WellKeyed(users)
  }

  /** `command.name || local part of the email`. */
  function DisplayName(name: Option<string>, vo: Email.EmailVO): (n: string)
    ensures Truthy(name) ==> n == name.value
    ensures !Truthy(name) ==> n == Email.LocalPart(vo)
  {
    if Truthy(name) then name.value else Email.LocalPart(vo)
  }

  /** The tokens' payload: the subject and the email. */
  function SessionClaims(u: CreatedUser): (c: Claims)
    ensures c.sub == u.id && c.email == u.email
  {
    Claims(u.id, u.email)
  }

  /** Register: validate the email and the password, refuse an email the user
      service knows, create the user, store the credential (with the user's id
      set on the entity, under the key the store picks, `credKey`), sign an
      access and a seven-day refresh token for the user, store the refresh
      token on the credential, and reply with status 200. The steps are not
      atomic: a failure after the user is created leaves it created. */
  ghost function RegisterIn(creds: AuthPersistence.AuthDocs, users: UserPersistence.UserDocs,
                            email: Option<string>, password: Option<string>, name: Option<string>,
                            h: Hasher, iss: Issuer, now: Time, userKey: string, credKey: string): (o: Outcome<ApiResponse<Session>>)
    requires StoresValid(creds, users) && userKey != ""
    ensures StoresValid(o.creds, o.users)
    ensures o.result.Ok? ==> o.result.value.data.Some?
  {
    match Email.Create(email)
    case Err(e) => Outcome(Err(Raised(e)), creds, users)
    case Ok(vo) =>
      match Password.Create(password)
      case Err(e) => Outcome(Err(Raised(e)), creds, users)
      case Ok(_) =>
        RegisterValidatedIn(creds, users, vo.value, password.value, DisplayName(name, vo), h, iss, now, userKey, credKey)
  }

  /** Register once the email `email` (normalised) and the password are valid:
      refuse an email the user service knows, hash the password, create the
      user, then store the credential and the tokens. */
  ghost function RegisterValidatedIn(creds: AuthPersistence.AuthDocs, users: UserPersistence.UserDocs,
                                     email: string, password: string, name: string,
                                     h: Hasher, iss: Issuer, now: Time, userKey: string, credKey: string): (o: Outcome<ApiResponse<Session>>)
    requires StoresValid(creds, users) && userKey != ""
    ensures StoresValid(o.creds, o.users)
    ensures o.result.Ok? ==> o.result.value.data.Some?
  {
    if GetUserByEmailIn(users, email, now).found then
      Outcome(Err(Raised(UserAlreadyExistsException(Some(email), None))), creds, users)
    else
      var created := CreateUserIn(users, email, name, now, userKey);
      if created.0.Err? then Outcome(Err(created.0.error), creds, created.1)
      else
        var issued := IssueIn(creds, email, h.hash(password), created.0.value, iss, now, credKey);
        Outcome(issued.0, issued.1, created.1)
  }

  /** The last steps of register, once the user `u` is created: store the
      credential (email, hashed password, and the user's id, which the mapper
      drops) under `credKey`, sign the tokens for the user, and store the
      refresh token on the credential. */
  ghost function IssueIn(creds: AuthPersistence.AuthDocs, email: string, hashed: string, u: CreatedUser,
                         iss: Issuer, now: Time, credKey: string): (res: (Result<ApiResponse<Session>, Failure>, AuthPersistence.AuthDocs))
    requires AuthPersistence.UniqueEmails(creds)
    ensures AuthPersistence.UniqueEmails(res.1)
    ensures res.0.Err? ==> res == (Err(Crash(DuplicateKeyMessage)), creds)
    ensures res.0.Ok? ==> res.0.value.data.Some? && res.0.value.data.value.user == u
  {
    var record := NewRecord(email, hashed).(id := Some(u.id));
    var saved := AuthPersistence.SaveIn(creds, record, credKey);
    if saved.0.Err? then (Err(saved.0.error), saved.1)
    else
      var rt := iss.sign(SessionClaims(u), REFRESH_TTL, now);
      AuthPersistence.SavePreservesUnique(creds, record, credKey);
      AuthPersistence.UpdatePreservesUnique(saved.1, credKey, Some(rt));
      (Ok(Success(Session(iss.sign(SessionClaims(u), DefaultTtl, now), rt, u), Some(200), None, now)),
       AuthPersistence.UpdateRefreshTokenIn(saved.1, credKey, Some(rt)))
  }

  /** Login: validate the email, find the credential by it, compare the
      password, ask the user service for the user, sign an access and a
      refresh token for the user's id, and store the refresh token on the
      credential. An unknown email, a wrong password and a user the service
      does not know all fail alike. The last-login time is set on the
      in-memory entity only. */
  ghost function LoginIn(creds: AuthPersistence.AuthDocs, users: UserPersistence.UserDocs,
                         email: Option<string>, password: string,
                         h: Hasher, iss: Issuer, now: Time): (o: Outcome<ApiResponse<Session>>)
    requires StoresValid(creds, users)
    ensures o.users == users && StoresValid(o.creds, o.users)
    ensures o.result.Err? ==> o.creds == creds
    ensures o.result.Ok? ==> o.result.value.data.Some?
  {
    match Email.Create(email)
    case Err(e) => Outcome(Err(Raised(e)), creds, users)
    case Ok(vo) =>
      var auth := AuthPersistence.FindByEmailIn(creds, vo.value);
      if auth.None? || !h.compare(password, auth.value.password) then
        Outcome(Err(Raised(InvalidCredentialsException(None))), creds, users)
      else
        var reply := GetUserByEmailIn(users, vo.value, now);
        if !reply.found then Outcome(Err(Raised(InvalidCredentialsException(None))), creds, users)
        else
          var u := CreatedUser(reply.id, reply.email, reply.name);
          var rt := iss.sign(SessionClaims(u), REFRESH_TTL, now);
          AuthPersistence.UpdatePreservesUnique(creds, auth.value.id.value, Some(rt));
          Outcome(Ok(Success(Session(iss.sign(SessionClaims(u), DefaultTtl, now), rt, u), Some(200), None, now)),
                  AuthPersistence.UpdateRefreshTokenIn(creds, auth.value.id.value, Some(rt)), users)
  }

  /** Every refresh failure, whatever its cause. */
  const InvalidRefreshToken: Failure := HttpUnauthorized("Invalid refresh token")

  /** Refresh: accepted exactly when the token verifies and the credential
      stored under its subject holds that very token; the credential then gets
      a new pair of tokens signed for its own key and email, and holds the new
      refresh token. Every failure is the same 401 and changes nothing. */
  function RefreshIn(creds: AuthPersistence.AuthDocs, token: string, iss: Issuer, now: Time): (res: (Result<TokenPair, Failure>, AuthPersistence.AuthDocs))
    ensures res.0.Err? ==> res == (Err(InvalidRefreshToken), creds)
    ensures res.0.Ok? <==> && iss.verify(token, now).Ok?
                           && iss.verify(token, now).value.sub in creds
                           && creds[iss.verify(token, now).value.sub].refreshToken == Some(token)
    ensures res.0.Ok? ==> var sub := iss.verify(token, now).value.sub;
                          var c := Claims(sub, creds[sub].email);
                          && res.0.value == TokenPair(iss.sign(c, DefaultTtl, now), iss.sign(c, REFRESH_TTL, now))
                          && res.1 == creds[sub := creds[sub].(refreshToken := Some(res.0.value.refreshToken))]
  {
    match iss.verify(token, now)
    case Err(_) => (Err(InvalidRefreshToken), creds)
    case Ok(payload) =>
      match AuthPersistence.FindByIdIn(creds, payload.sub)
      case None => (Err(InvalidRefreshToken), creds)
      case Some(auth) =>
        if auth.refreshToken != Some(token) then (Err(InvalidRefreshToken), creds)
        else
          var c := Claims(auth.id.value, auth.email);
          var rt := iss.sign(c, REFRESH_TTL, now);
          (Ok(TokenPair(iss.sign(c, DefaultTtl, now), rt)), AuthPersistence.UpdateRefreshTokenIn(creds, auth.id.value, Some(rt)))
  }

  /** Logout: the credential stored under the user id loses its refresh token;
      an unknown id raises UserNotFoundException and changes nothing. */
  function LogoutIn(creds: AuthPersistence.AuthDocs, userId: string): (res: (Result<(), Failure>, AuthPersistence.AuthDocs))
    ensures res.0.Err? <==> userId !in creds
    ensures res.0.Err? ==> res == (Err(Raised(UserNotFoundException(None))), creds)
    ensures res.0.Ok? ==> res.1 == creds[userId := creds[userId].(refreshToken := None)]
  {
    match AuthPersistence.FindByIdIn(creds, userId)
    case None => (Err(Raised(UserNotFoundException(None))), creds)
    case Some(auth) => (Ok(()), AuthPersistence.UpdateRefreshTokenIn(creds, auth.id.value, None))
  }

  class RegisterCommandHandler {
    const authRepository: AuthPersistence.AuthRepository
    const userService: UserGrpcController
    const hasher: Hasher
    const jwt: Issuer

    constructor (authRepository: AuthPersistence.AuthRepository, userService: UserGrpcController, hasher: Hasher, jwt: Issuer)
      ensures this.authRepository == authRepository && this.userService == userService
      ensures this.hasher == hasher && this.jwt == jwt
    {
      this.authRepository := authRepository;
      this.userService := userService;
      this.hasher := hasher;
      this.jwt := jwt;
    }

    /** `userKey` and `credKey` stand for the ObjectIds the two inserts generate. */
    method Execute(email: Option<string>, password: Option<string>, name: Option<string>, now: Time,
                   userKey: string, credKey: string) returns (r: Result<ApiResponse<Session>, Failure>)
      requires authRepository.Valid() && userService.repo.Valid() && userKey != ""
      modifies authRepository, userService.repo
      ensures authRepository.Valid() && userService.repo.Valid()
      ensures Outcome(r, authRepository.docs, userService.repo.docs)
              == RegisterIn(old(authRepository.docs), old(userService.repo.docs), email, password, name,
                            hasher, jwt, now, userKey, credKey)
    {
      var emailVO := Email.Create(email);
      if emailVO.Err? {
        return Err(Raised(emailVO.error));
      }
      var pw := Password.Create(password);
      if pw.Err? {
        return Err(Raised(pw.error));
      }
      r := RegisterValidated(emailVO.value.value, password.value, DisplayName(name, emailVO.value), now, userKey, credKey);
    }

    method RegisterValidated(email: string, password: string, name: string, now: Time, userKey: string, credKey: string)
      returns (r: Result<ApiResponse<Session>, Failure>)
      requires authRepository.Valid() && userService.repo.Valid() && userKey != ""
      modifies authRepository, userService.repo
      ensures authRepository.Valid() && userService.repo.Valid()
      ensures Outcome(r, authRepository.docs, userService.repo.docs)
              == RegisterValidatedIn(old(authRepository.docs), old(userService.repo.docs), email, password, name,
                                     hasher, jwt, now, userKey, credKey)
    {
      var existing := userService.GetUserByEmail(email, now);
      if existing.found {
        return Err(Raised(UserAlreadyExistsException(Some(email), None)));
      }
      var hashed := hasher.hash(password);
      var created := userService.CreateUser(email, name, now, userKey);
      if created.Err? {
        return Err(created.error);
      }
      r := StoreCredential(email, hashed, created.value, now, credKey);
    }

    method StoreCredential(email: string, hashed: string, u: CreatedUser, now: Time, credKey: string)
      returns (r: Result<ApiResponse<Session>, Failure>)
      requires authRepository.Valid()
      modifies authRepository
      ensures authRepository.Valid()
      ensures (r, authRepository.docs) == IssueIn(old(authRepository.docs), email, hashed, u, jwt, now, credKey)
    {
      var auth := new AuthEntity.Create(email, hashed);
      auth.AssignId(u.id);
      var saved := authRepository.Save(auth, credKey);
      if saved.Err? {
        return Err(saved.error);
      }
      var accessToken := jwt.sign(SessionClaims(u), DefaultTtl, now);
      var refreshToken := jwt.sign(SessionClaims(u), REFRESH_TTL, now);
      saved.value.UpdateRefreshToken(Some(refreshToken));
      authRepository.UpdateRefreshToken(saved.value.id.value, Some(refreshToken));
      r := Ok(Success(Session(accessToken, refreshToken, u), Some(200), None, now));
    }
  }

  class LoginCommandHandler {
    const authRepository: AuthPersistence.AuthRepository
    const userService: UserGrpcController
    const hasher: Hasher
    const jwt: Issuer

    constructor (authRepository: AuthPersistence.AuthRepository, userService: UserGrpcController, hasher: Hasher, jwt: Issuer)
      ensures this.authRepository == authRepository && this.userService == userService
      ensures this.hasher == hasher && this.jwt == jwt
    {
      this.authRepository := authRepository;
      this.userService := userService;
      this.hasher := hasher;
      this.jwt := jwt;
    }

    method Execute(email: Option<string>, password: string, now: Time) returns (r: Result<ApiResponse<Session>, Failure>)
      requires authRepository.Valid() && userService.repo.Valid()
      modifies authRepository
      ensures authRepository.Valid()
      ensures Outcome(r, authRepository.docs, userService.repo.docs)
              == LoginIn(old(authRepository.docs), userService.repo.docs, email, password, hasher, jwt, now)
    {
      var emailVO := Email.Create(email);
      if emailVO.Err? {
        return Err(Raised(emailVO.error));
      }
      var v := emailVO.value.value;
      var auth := authRepository.FindByEmail(v);
      if auth.None? {
        return Err(Raised(InvalidCredentialsException(None)));
      }
      if !hasher.compare(password, auth.value.password) {
        return Err(Raised(InvalidCredentialsException(None)));
      }
      var reply := userService.GetUserByEmail(v, now);
      if !reply.found {
        return Err(Raised(InvalidCredentialsException(None)));
      }
      var u := CreatedUser(reply.id, reply.email, reply.name);
      var accessToken := jwt.sign(SessionClaims(u), DefaultTtl, now);
      var refreshToken := jwt.sign(SessionClaims(u), REFRESH_TTL, now);
      auth.value.UpdateRefreshToken(Some(refreshToken));
      auth.value.UpdateLastLogin(now);
      authRepository.UpdateRefreshToken(auth.value.id.value, Some(refreshToken));
      r := Ok(Success(Session(accessToken, refreshToken, u), Some(200), None, now));
    }
  }

  class RefreshTokenCommandHandler {
    const authRepository: AuthPersistence.AuthRepository
    const jwt: Issuer

    constructor (authRepository: AuthPersistence.AuthRepository, jwt: Issuer)
      ensures this.authRepository == authRepository && this.jwt == jwt
    {
      this.authRepository := authRepository;
      this.jwt := jwt;
    }

    method Execute(refreshToken: string, now: Time) returns (r: Result<TokenPair, Failure>)
      requires authRepository.Valid()
      modifies authRepository
      ensures authRepository.Valid()
      ensures (r, authRepository.docs) == RefreshIn(old(authRepository.docs), refreshToken, jwt, now)
    {
      var payload := jwt.verify(refreshToken, now);
      if payload.Err? {
        return Err(InvalidRefreshToken);
      }
      var auth := authRepository.FindById(payload.value.sub);
      if auth.None? || auth.value.refreshToken != Some(refreshToken) {
        return Err(InvalidRefreshToken);
      }
      var c := Claims(auth.value.id.value, auth.value.email);
      var accessToken := jwt.sign(c, DefaultTtl, now);
      var newRefreshToken := jwt.sign(c, REFRESH_TTL, now);
      authRepository.UpdateRefreshToken(auth.value.id.value, Some(newRefreshToken));
      r := Ok(TokenPair(accessToken, newRefreshToken));
    }
  }

  class LogoutCommandHandler {
    const authRepository: AuthPersistence.AuthRepository

    constructor (authRepository: AuthPersistence.AuthRepository)
      ensures this.authRepository == authRepository
    {
      this.authRepository := authRepository;
    }

    method Execute(userId: string) returns (r: Result<(), Failure>)
      requires authRepository.Valid()
      modifies authRepository
      ensures authRepository.Valid()
      ensures (r, authRepository.docs) == LogoutIn(old(authRepository.docs), userId)
    {
      var auth := authRepository.FindById(userId);
      if auth.None? {
        return Err(Raised(UserNotFoundException(None)));
      }
      auth.value.Logout();
      authRepository.UpdateRefreshToken(auth.value.id.value, None);
      r := Ok(());
    }
  }
}
