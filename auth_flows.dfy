/** Properties of the auth handlers, one flow at a time and across flows
    (register then login, login then refresh, refresh then refresh, logout
    then refresh), and the corrected variants of register and login. */
module AuthFlows {
  import opened Common
  import opened Exceptions
  import opened Responses
  import opened Text
  import Email
  import Password
  import opened AuthDomain
  import AuthPersistence
  import UserPersistence
  import UserDomain
  import opened UserApplication
  import opened Ports
  import opened AuthHandlers

  // ---------------------------------------------------------------- register

  /** An invalid email or password is rejected with the value object's error
      before either store is touched. */
  lemma RegisterRejectsInvalidInput(creds: AuthPersistence.AuthDocs, users: UserPersistence.UserDocs,
                                    email: Option<string>, password: Option<string>, name: Option<string>,
                                    h: Hasher, iss: Issuer, now: Time, userKey: string, credKey: string)
    requires StoresValid(creds, users) && userKey != ""
    requires Email.Create(email).Err? || Password.Create(password).Err?
    ensures var o := RegisterIn(creds, users, email, password, name, h, iss, now, userKey, credKey);
            && o.creds == creds && o.users == users
            && (Email.Create(email).Err? ==> o.result == Err(Raised(InvalidEmailException(email, None))))
            && (Email.Create(email).Ok? ==> o.result == Err(Raised(InvalidPasswordException(None, None))))
  {
  }

  /** An email the user service already holds is refused with
      UserAlreadyExistsException for the normalised email. */
  lemma RegisterRejectsKnownEmail(creds: AuthPersistence.AuthDocs, users: UserPersistence.UserDocs,
                                  email: Option<string>, password: Option<string>, name: Option<string>,
                                  h: Hasher, iss: Issuer, now: Time, userKey: string, credKey: string)
    requires StoresValid(creds, users) && userKey != ""
    requires Email.Create(email).Ok? && Password.Create(password).Ok?
    requires UserPersistence.EmailTaken(users, Email.Create(email).value.value)
    ensures var o := RegisterIn(creds, users, email, password, name, h, iss, now, userKey, credKey);
            && o.creds == creds && o.users == users
            && o.result == Err(Raised(UserAlreadyExistsException(Some(Email.Create(email).value.value), None)))
            && o.result.error.exception.kind == ConflictKind
  {
  }

  /** Storing the credential succeeds exactly when its key is free and no
      credential holds the email; the credential then holds the email, the
      hashed password and the refresh token signed for the user. */
  lemma IssueSucceeds(creds: AuthPersistence.AuthDocs, email: string, hashed: string, u: CreatedUser,
                      iss: Issuer, now: Time, credKey: string)
    requires AuthPersistence.UniqueEmails(creds)
    ensures var res := IssueIn(creds, email, hashed, u, iss, now, credKey);
            var rt := iss.sign(SessionClaims(u), REFRESH_TTL, now);
            && (res.0.Ok? <==> credKey !in creds && !AuthPersistence.EmailTaken(creds, email))
            && (res.0.Ok? ==>
                  && res.0.value.status == 200
                  && res.0.value.data == Some(Session(iss.sign(SessionClaims(u), DefaultTtl, now), rt, u))
                  && res.1 == creds[credKey := AuthPersistence.AuthDoc(email, hashed, Some(rt), None)])
  {
    var rt := iss.sign(SessionClaims(u), REFRESH_TTL, now);
    var doc := AuthPersistence.AuthDoc(email, hashed, None, None);
    assert AuthPersistence.UpdateRefreshTokenIn(creds[credKey := doc], credKey, Some(rt))
           == creds[credKey := doc.(refreshToken := Some(rt))];
  }

  /** Once the inputs are valid, register succeeds exactly when the email is
      unknown to the user service, the display name is long enough once
      trimmed, both generated keys are free and no credential holds the email.
      Then the user is stored under `userKey` with the trimmed name, the
      credential under `credKey` with the hashed password and the refresh
      token, and both tokens are signed for the user's id and email. */
  lemma RegisterValidatedSucceeds(creds: AuthPersistence.AuthDocs, users: UserPersistence.UserDocs,
                                  email: string, password: string, name: string,
                                  h: Hasher, iss: Issuer, now: Time, userKey: string, credKey: string)
    requires StoresValid(creds, users) && userKey != ""
    requires Email.Create(Some(email)) == Ok(Email.EmailVO(email))
    ensures var o := RegisterValidatedIn(creds, users, email, password, name, h, iss, now, userKey, credKey);
            var n := Trim(name);
            var c := Claims(userKey, email);
            var rt := iss.sign(c, REFRESH_TTL, now);
            && (o.result.Ok? <==> && !UserPersistence.EmailTaken(users, email)
                                  && name != "" && Utf16Length(n) >= UserDomain.NAME_MIN_LENGTH && userKey !in users
                                  && credKey !in creds && !AuthPersistence.EmailTaken(creds, email))
            && (o.result.Ok? ==>
                  && o.result.value.status == 200
                  && o.result.value.data == Some(Session(iss.sign(c, DefaultTtl, now), rt, CreatedUser(userKey, email, n)))
                  && o.users == users[userKey := UserPersistence.UserDoc(email, n, Some(now), Some(now), None)]
                  && o.creds == creds[credKey := AuthPersistence.AuthDoc(email, h.hash(password), Some(rt), None)])
  {
    CreateUserOutcome(users, email, name, now, userKey);
    var created := CreateUserIn(users, email, name, now, userKey);
    if created.0.Ok? {
      IssueSucceeds(creds, email, h.hash(password), created.0.value, iss, now, credKey);
    }
  }

  /** What a successful registration leaves behind: the user under
      `userKey` with the normalised email and the trimmed name, the
      credential under `credKey`, and a refresh token signed for the user. */
  lemma RegisteredState(creds: AuthPersistence.AuthDocs, users: UserPersistence.UserDocs,
                        email: string, password: string, name: string,
                        h: Hasher, iss: Issuer, now: Time, userKey: string, credKey: string)
    requires StoresValid(creds, users) && userKey != ""
    requires Email.Create(Some(email)) == Ok(Email.EmailVO(email))
    requires RegisterValidatedIn(creds, users, email, password, name, h, iss, now, userKey, credKey).result.Ok?
    ensures var o := RegisterValidatedIn(creds, users, email, password, name, h, iss, now, userKey, credKey);
            var rt := iss.sign(Claims(userKey, email), REFRESH_TTL, now);
            var u := o.result.value.data.value.user;
            && o.result.value.data.value.refreshToken == rt
            && u == CreatedUser(userKey, email, Trim(name))
            && userKey !in users && credKey !in creds
            && o.creds == creds[credKey := AuthPersistence.AuthDoc(email, h.hash(password), Some(rt), None)]
            && o.users == users[userKey := UserPersistence.UserDoc(email, Trim(name), Some(now), Some(now), None)]
  {
    CreateUserOutcome(users, email, name, now, userKey);
    var created := CreateUserIn(users, email, name, now, userKey);
    IssueSucceeds(creds, email, h.hash(password), created.0.value, iss, now, credKey);
  }

  /** Past validation, a display name shorter than two UTF-16 code units once
      trimmed fails on the name rule before anything is stored. */
  lemma ValidatedShortName(creds: AuthPersistence.AuthDocs, users: UserPersistence.UserDocs,
                           email: string, password: string, name: string,
                           h: Hasher, iss: Issuer, now: Time, userKey: string, credKey: string)
    requires StoresValid(creds, users) && userKey != ""
    requires !UserPersistence.EmailTaken(users, email)
    requires name == "" || Utf16Length(Trim(name)) < UserDomain.NAME_MIN_LENGTH
    ensures RegisterValidatedIn(creds, users, email, password, name, h, iss, now, userKey, credKey)
            == Outcome(Err(Raised(InvalidNameException(Some(name)))), creds, users)
  {
    CreateUserOutcome(users, email, name, now, userKey);
  }

  /** A valid email and password lead register into its validated stage with
      the normalised email, which the user service's own validation accepts
      unchanged. */
  lemma RegisterValidates(creds: AuthPersistence.AuthDocs, users: UserPersistence.UserDocs,
                          email: Option<string>, password: Option<string>, name: Option<string>,
                          h: Hasher, iss: Issuer, now: Time, userKey: string, credKey: string)
    requires StoresValid(creds, users) && userKey != ""
    requires Email.Create(email).Ok? && Password.Create(password).Ok?
    ensures var vo := Email.Create(email).value;
            && Email.Create(Some(vo.value)) == Ok(vo)
            && RegisterIn(creds, users, email, password, name, h, iss, now, userKey, credKey)
               == RegisterValidatedIn(creds, users, vo.value, password.value, DisplayName(name, vo), h, iss, now, userKey, credKey)
  {
    Email.CreateIdempotent(email);
  }

  /** Without a name the user is named after the email's local part; a local
      part shorter than two code units makes register fail on the name rule, before
      anything is stored. */
  lemma RegisterDefaultName(creds: AuthPersistence.AuthDocs, users: UserPersistence.UserDocs,
                            email: Option<string>, password: Option<string>, name: Option<string>,
                            h: Hasher, iss: Issuer, now: Time, userKey: string, credKey: string)
    requires StoresValid(creds, users) && userKey != ""
    requires Email.Create(email).Ok? && Password.Create(password).Ok?
    requires !UserPersistence.EmailTaken(users, Email.Create(email).value.value)
    requires !Truthy(name)
    ensures var o := RegisterIn(creds, users, email, password, name, h, iss, now, userKey, credKey);
            var local := Email.LocalPart(Email.Create(email).value);
            && (Utf16Length(local) < UserDomain.NAME_MIN_LENGTH ==>
                  o == Outcome(Err(Raised(InvalidNameException(Some(local)))), creds, users))
            && (o.result.Ok? ==> o.result.value.data.value.user.name == local)
  {
    var vo := Email.Create(email).value;
    var local := Email.LocalPart(vo);
    DefaultNameIsLocalPart(email, name);
    RegisterValidates(creds, users, email, password, name, h, iss, now, userKey, credKey);
    if Utf16Length(local) < UserDomain.NAME_MIN_LENGTH {
      ValidatedShortName(creds, users, vo.value, password.value, local, h, iss, now, userKey, credKey);
    } else if RegisterValidatedIn(creds, users, vo.value, password.value, local, h, iss, now, userKey, credKey).result.Ok? {
      RegisteredState(creds, users, vo.value, password.value, local, h, iss, now, userKey, credKey);
    }
  }

  /** Without a name, the display name is the email's local part, which
      trimming leaves unchanged. */
  lemma DefaultNameIsLocalPart(email: Option<string>, name: Option<string>)
    requires Email.Create(email).Ok? && !Truthy(name)
    ensures var vo := Email.Create(email).value;
            DisplayName(name, vo) == Email.LocalPart(vo) && Trim(Email.LocalPart(vo)) == Email.LocalPart(vo)
  {
    var vo := Email.Create(email).value;
    assert Email.MatchesPattern(vo.value) by {
      Email.CreateValid(email);
    }
    Email.LocalPartOfValid(vo);
  }

  /** Register is not atomic: when the credential cannot be stored the user
      stays created, and registering the same email again is refused. */
  lemma RegisterLeavesOrphanUser(creds: AuthPersistence.AuthDocs, users: UserPersistence.UserDocs,
                                 email: Option<string>, password: Option<string>, name: Option<string>,
                                 h: Hasher, iss: Issuer, now: Time, userKey: string, credKey: string,
                                 later: Time, userKey2: string, credKey2: string)
    requires StoresValid(creds, users) && userKey != "" && userKey2 != ""
    requires Email.Create(email).Ok? && Password.Create(password).Ok?
    requires CreateUserIn(users, Email.Create(email).value.value, DisplayName(name, Email.Create(email).value), now, userKey).0.Ok?
    requires credKey in creds || AuthPersistence.EmailTaken(creds, Email.Create(email).value.value)
    ensures var o := RegisterIn(creds, users, email, password, name, h, iss, now, userKey, credKey);
            var v := Email.Create(email).value.value;
            && o.result == Err(Crash(DuplicateKeyMessage)) && o.creds == creds
            && userKey in o.users && o.users[userKey].email == v
            && RegisterIn(o.creds, o.users, email, password, name, h, iss, later, userKey2, credKey2).result
               == Err(Raised(UserAlreadyExistsException(Some(v), None)))
  {
    var vo := Email.Create(email).value;
    RegisterValidates(creds, users, email, password, name, h, iss, now, userKey, credKey);
    CreateUserOutcome(users, vo.value, DisplayName(name, vo), now, userKey);
    var created := CreateUserIn(users, vo.value, DisplayName(name, vo), now, userKey);
    IssueSucceeds(creds, vo.value, h.hash(password.value), created.0.value, iss, now, credKey);
    var o := RegisterIn(creds, users, email, password, name, h, iss, now, userKey, credKey);
    assert o.users == created.1;
    assert UserPersistence.EmailTaken(o.users, vo.value) by {
      assert o.users[userKey].email == vo.value;
    }
    RegisterValidates(o.creds, o.users, email, password, name, h, iss, later, userKey2, credKey2);
  }

  // ------------------------------------------------------------------- login

  /** The credential key of a known email. */
  ghost function CredentialKey(creds: AuthPersistence.AuthDocs, email: string): (k: string)
    requires AuthPersistence.EmailTaken(creds, email)
    ensures k in creds && creds[k].email == email
  {
    AuthPersistence.KeyOfEmail(creds, email).value
  }

  /** Login with an email the value object refuses fails with
      InvalidEmailException carrying the email as given, before any
      credential is read or any password compared, and changes nothing. */
  lemma LoginRejectsInvalidEmail(creds: AuthPersistence.AuthDocs, users: UserPersistence.UserDocs,
                                 email: Option<string>, password: string, h: Hasher, iss: Issuer, now: Time)
    requires StoresValid(creds, users)
    requires Email.Create(email).Err?
    ensures LoginIn(creds, users, email, password, h, iss, now)
            == Outcome(Err(Raised(InvalidEmailException(email, None))), creds, users)
  {
  }

  /** Login with a valid email succeeds exactly when a credential holds the
      email, the password matches its hash and the user service knows the
      email; every other case is the same InvalidCredentialsException and
      changes nothing. On success the credential holds the new refresh token
      and nothing else in the store changes; both tokens are signed for the
      user's id. */
  lemma LoginSucceeds(creds: AuthPersistence.AuthDocs, users: UserPersistence.UserDocs,
                      email: Option<string>, password: string, h: Hasher, iss: Issuer, now: Time)
    requires StoresValid(creds, users)
    requires Email.Create(email).Ok?
    ensures var o := LoginIn(creds, users, email, password, h, iss, now);
            var v := Email.Create(email).value.value;
            && (o.result.Ok? <==> && AuthPersistence.EmailTaken(creds, v)
                                  && h.compare(password, creds[CredentialKey(creds, v)].password)
                                  && UserPersistence.EmailTaken(users, v))
            && (o.result.Err? ==> o.result == Err(Raised(InvalidCredentialsException(None))) && o.creds == creds)
            && (o.result.Ok? ==>
                  var k := CredentialKey(creds, v);
                  var reply := GetUserByEmailIn(users, v, now);
                  var c := Claims(reply.id, v);
                  && reply.found && reply.email == v
                  && o.result.value.data == Some(Session(iss.sign(c, DefaultTtl, now), iss.sign(c, REFRESH_TTL, now),
                                                          CreatedUser(reply.id, v, reply.name)))
                  && o.creds == creds[k := creds[k].(refreshToken := Some(iss.sign(c, REFRESH_TTL, now)))])
  {
  }

  /** Login with the email of a credential whose hash the password matches,
      and of a user the service holds, succeeds as that user. */
  lemma LoginKnown(creds: AuthPersistence.AuthDocs, users: UserPersistence.UserDocs,
                   email: string, password: string, h: Hasher, iss: Issuer, now: Time,
                   credKey: string, userKey: string)
    requires StoresValid(creds, users)
    requires Email.Create(Some(email)) == Ok(Email.EmailVO(email))
    requires credKey in creds && creds[credKey].email == email && h.compare(password, creds[credKey].password)
    requires userKey in users && users[userKey].email == email
    ensures var l := LoginIn(creds, users, Some(email), password, h, iss, now);
            && l.result.Ok? && l.result.value.data.value.user == CreatedUser(userKey, email, users[userKey].name)
  {
    LoginSucceeds(creds, users, Some(email), password, h, iss, now);
    assert CredentialKey(creds, email) == credKey;
    assert GetUserByEmailIn(users, email, now).id == userKey;
  }

  /** A registered user can log in with the password they registered with,
      as the user the registration created. */
  lemma ValidatedThenLogin(creds: AuthPersistence.AuthDocs, users: UserPersistence.UserDocs,
                           email: string, password: string, name: string,
                           h: Hasher, iss: Issuer, now: Time, userKey: string, credKey: string, later: Time)
    requires StoresValid(creds, users) && userKey != "" && HashSound(h)
    requires Email.Create(Some(email)) == Ok(Email.EmailVO(email))
    requires RegisterValidatedIn(creds, users, email, password, name, h, iss, now, userKey, credKey).result.Ok?
    ensures var o := RegisterValidatedIn(creds, users, email, password, name, h, iss, now, userKey, credKey);
            var l := LoginIn(o.creds, o.users, Some(email), password, h, iss, later);
            && l.result.Ok? && l.result.value.data.value.user == o.result.value.data.value.user
  {
    RegisteredState(creds, users, email, password, name, h, iss, now, userKey, credKey);
    var o := RegisterValidatedIn(creds, users, email, password, name, h, iss, now, userKey, credKey);
    assert h.compare(password, o.creds[credKey].password);
    LoginKnown(o.creds, o.users, email, password, h, iss, later, credKey, userKey);
  }

  lemma RegisterThenLogin(creds: AuthPersistence.AuthDocs, users: UserPersistence.UserDocs,
                          email: Option<string>, password: Option<string>, name: Option<string>,
                          h: Hasher, iss: Issuer, now: Time, userKey: string, credKey: string, later: Time)
    requires StoresValid(creds, users) && userKey != "" && HashSound(h)
    requires Email.Create(email).Ok? && Password.Create(password).Ok?
    requires RegisterIn(creds, users, email, password, name, h, iss, now, userKey, credKey).result.Ok?
    ensures var o := RegisterIn(creds, users, email, password, name, h, iss, now, userKey, credKey);
            var l := LoginIn(o.creds, o.users, email, password.value, h, iss, later);
            && l.result.Ok? && l.result.value.data.value.user == o.result.value.data.value.user
  {
    var vo := Email.Create(email).value;
    RegisterValidates(creds, users, email, password, name, h, iss, now, userKey, credKey);
    ValidatedThenLogin(creds, users, vo.value, password.value, DisplayName(name, vo), h, iss, now, userKey, credKey, later);
  }

  // ------------------------------------------------------- refresh and logout

  /** A refresh token is single-use: once refreshed (to a different token) the
      old one is refused while it still verifies to the same claims. */
  lemma RefreshRotates(creds: AuthPersistence.AuthDocs, token: string, iss: Issuer, now: Time, later: Time)
    requires RefreshIn(creds, token, iss, now).0.Ok?
    requires RefreshIn(creds, token, iss, now).0.value.refreshToken != token
    requires iss.verify(token, later) == iss.verify(token, now)
    ensures var after := RefreshIn(creds, token, iss, now).1;
            RefreshIn(after, token, iss, later) == (Err(InvalidRefreshToken), after)
  {
  }

  /** The new refresh token is accepted in turn for the next seven days. */
  lemma RefreshChains(creds: AuthPersistence.AuthDocs, token: string, iss: Issuer, now: Time, later: Time)
    requires IssuerSound(iss)
    requires RefreshIn(creds, token, iss, now).0.Ok?
    requires now <= later < now + 7 * SECONDS_PER_DAY
    ensures var res := RefreshIn(creds, token, iss, now);
            RefreshIn(res.1, res.0.value.refreshToken, iss, later).0.Ok?
  {
    var sub := iss.verify(token, now).value.sub;
    var c := Claims(sub, creds[sub].email);
    RefreshTokenLasts(iss, c, now, later);
  }

  /** After logout no token for that user can be refreshed. */
  lemma LogoutRevokes(creds: AuthPersistence.AuthDocs, userId: string, token: string, iss: Issuer, later: Time)
    requires LogoutIn(creds, userId).0.Ok?
    requires iss.verify(token, later).Ok? && iss.verify(token, later).value.sub == userId
    ensures var after := LogoutIn(creds, userId).1;
            RefreshIn(after, token, iss, later) == (Err(InvalidRefreshToken), after)
  {
  }

  /** Logging out twice is logging out once. */
  lemma LogoutIdempotent(creds: AuthPersistence.AuthDocs, userId: string)
    ensures var once := LogoutIn(creds, userId);
            LogoutIn(once.1, userId) == once
  {
    if userId in creds {
      var after := creds[userId := creds[userId].(refreshToken := None)];
      assert after[userId := after[userId].(refreshToken := None)] == after;
    }
  }

  // ------------------------------------- credentials keyed apart from users

  /** Every credential is stored under the id of the user with the same email:
      the link refresh and logout rely on, since they look credentials up by
      the token's subject, which is the user's id. */
  ghost predicate Linked(creds: AuthPersistence.AuthDocs, users: UserPersistence.UserDocs) {
    forall k :: k in creds ==> k in users && users[k].email == creds[k].email
  }

  /** As written, register stores the credential under a key of its own, so
      the refresh token it returns is refused and logging the new user out
      fails, whenever that key is not the user's id. */
  lemma ValidatedThenRefreshRejected(creds: AuthPersistence.AuthDocs, users: UserPersistence.UserDocs,
                                     email: string, password: string, name: string,
                                     h: Hasher, iss: Issuer, now: Time, userKey: string, credKey: string, later: Time)
    requires StoresValid(creds, users) && userKey != "" && IssuerSound(iss)
    requires Email.Create(Some(email)) == Ok(Email.EmailVO(email))
    requires RegisterValidatedIn(creds, users, email, password, name, h, iss, now, userKey, credKey).result.Ok?
    requires userKey != credKey && userKey !in creds
    requires now <= later < now + 7 * SECONDS_PER_DAY
    ensures var o := RegisterValidatedIn(creds, users, email, password, name, h, iss, now, userKey, credKey);
            var rt := o.result.value.data.value.refreshToken;
            && RefreshIn(o.creds, rt, iss, later) == (Err(InvalidRefreshToken), o.creds)
            && LogoutIn(o.creds, userKey).0 == Err(Raised(UserNotFoundException(None)))
  {
    var o := RegisterValidatedIn(creds, users, email, password, name, h, iss, now, userKey, credKey);
    var rt := o.result.value.data.value.refreshToken;
    assert rt == iss.sign(Claims(userKey, email), REFRESH_TTL, now) && userKey !in o.creds by {
      RegisteredState(creds, users, email, password, name, h, iss, now, userKey, credKey);
    }
    assert iss.verify(rt, later) == Ok(Claims(userKey, email)) by {
      RefreshTokenLasts(iss, Claims(userKey, email), now, later);
    }
  }

  lemma RegisterThenRefreshRejected(creds: AuthPersistence.AuthDocs, users: UserPersistence.UserDocs,
                                    email: Option<string>, password: Option<string>, name: Option<string>,
                                    h: Hasher, iss: Issuer, now: Time, userKey: string, credKey: string, later: Time)
    requires StoresValid(creds, users) && userKey != "" && IssuerSound(iss)
    requires Email.Create(email).Ok? && Password.Create(password).Ok?
    requires RegisterIn(creds, users, email, password, name, h, iss, now, userKey, credKey).result.Ok?
    requires userKey != credKey && userKey !in creds
    requires now <= later < now + 7 * SECONDS_PER_DAY
    ensures var o := RegisterIn(creds, users, email, password, name, h, iss, now, userKey, credKey);
            var rt := o.result.value.data.value.refreshToken;
            && RefreshIn(o.creds, rt, iss, later) == (Err(InvalidRefreshToken), o.creds)
            && LogoutIn(o.creds, userKey).0 == Err(Raised(UserNotFoundException(None)))
  {
    var vo := Email.Create(email).value;
    RegisterValidates(creds, users, email, password, name, h, iss, now, userKey, credKey);
    ValidatedThenRefreshRejected(creds, users, vo.value, password.value, DisplayName(name, vo), h, iss, now, userKey, credKey, later);
  }

  /** As written, register breaks the link whenever the credential's key is
      not a user id. */
  lemma RegisterBreaksLink(creds: AuthPersistence.AuthDocs, users: UserPersistence.UserDocs,
                           email: Option<string>, password: Option<string>, name: Option<string>,
                           h: Hasher, iss: Issuer, now: Time, userKey: string, credKey: string)
    requires StoresValid(creds, users) && userKey != ""
    requires Email.Create(email).Ok? && Password.Create(password).Ok?
    requires RegisterIn(creds, users, email, password, name, h, iss, now, userKey, credKey).result.Ok?
    requires credKey != userKey && credKey !in users
    ensures var o := RegisterIn(creds, users, email, password, name, h, iss, now, userKey, credKey);
            !Linked(o.creds, o.users)
  {
    RegisterValidates(creds, users, email, password, name, h, iss, now, userKey, credKey);
    RegisterValidatedSucceeds(creds, users, Email.Create(email).value.value, password.value,
                              DisplayName(name, Email.Create(email).value), h, iss, now, userKey, credKey);
    var o := RegisterIn(creds, users, email, password, name, h, iss, now, userKey, credKey);
    assert credKey in o.creds && credKey !in o.users;
  }

  /** Register with the credential stored under the created user's id, the
      key the handlers that read credentials by token subject expect. */
  ghost function RegisterLinkedIn(creds: AuthPersistence.AuthDocs, users: UserPersistence.UserDocs,
                                  email: Option<string>, password: Option<string>, name: Option<string>,
                                  h: Hasher, iss: Issuer, now: Time, userKey: string): (o: Outcome<ApiResponse<Session>>)
    requires StoresValid(creds, users) && userKey != ""
    ensures StoresValid(o.creds, o.users)
    ensures o.result.Ok? ==> o.result.value.data.Some?
  {
    RegisterIn(creds, users, email, password, name, h, iss, now, userKey, userKey)
  }

  /** Past validation, registering with the credential under the user's id
      keeps every credential linked to its user, whichever step fails. */
  lemma ValidatedLinkedKeepsLink(creds: AuthPersistence.AuthDocs, users: UserPersistence.UserDocs,
                                 email: string, password: string, name: string,
                                 h: Hasher, iss: Issuer, now: Time, userKey: string)
    requires StoresValid(creds, users) && userKey != "" && Linked(creds, users)
    requires Email.Create(Some(email)) == Ok(Email.EmailVO(email))
    ensures var o := RegisterValidatedIn(creds, users, email, password, name, h, iss, now, userKey, userKey);
            Linked(o.creds, o.users)
  {
    var o := RegisterValidatedIn(creds, users, email, password, name, h, iss, now, userKey, userKey);
    if o.result.Ok? {
      RegisteredState(creds, users, email, password, name, h, iss, now, userKey, userKey);
      LinkedExtend(creds, users, userKey, o.creds[userKey], o.users[userKey]);
    } else {
      ValidatedFailureKeeps(creds, users, email, password, name, h, iss, now, userKey, userKey);
      LinkedMoreUsers(creds, users, o.users);
    }
  }

  /** Storing a credential and a user with the same email under one key keeps
      the link. */
  lemma LinkedExtend(creds: AuthPersistence.AuthDocs, users: UserPersistence.UserDocs, k: string,
                     c: AuthPersistence.AuthDoc, u: UserPersistence.UserDoc)
    requires Linked(creds, users) && c.email == u.email
    ensures Linked(creds[k := c], users[k := u])
  {
  }

  /** Adding users keeps the link. */
  lemma LinkedMoreUsers(creds: AuthPersistence.AuthDocs, users: UserPersistence.UserDocs,
                        more: UserPersistence.UserDocs)
    requires Linked(creds, users)
    requires forall k :: k in users ==> k in more && more[k] == users[k]
    ensures Linked(creds, more)
  {
  }

  /** A register that fails past validation leaves the credentials as they
      were and every user that was stored before. */
  lemma ValidatedFailureKeeps(creds: AuthPersistence.AuthDocs, users: UserPersistence.UserDocs,
                              email: string, password: string, name: string,
                              h: Hasher, iss: Issuer, now: Time, userKey: string, credKey: string)
    requires StoresValid(creds, users) && userKey != ""
    requires RegisterValidatedIn(creds, users, email, password, name, h, iss, now, userKey, credKey).result.Err?
    ensures var o := RegisterValidatedIn(creds, users, email, password, name, h, iss, now, userKey, credKey);
            && o.creds == creds
            && forall k :: k in users ==> k in o.users && o.users[k] == users[k]
  {
    if !GetUserByEmailIn(users, email, now).found {
      CreateKeepsUsers(users, email, name, now, userKey);
    }
  }

  /** The corrected register keeps every credential linked to its user. */
  lemma RegisterLinkedKeepsLink(creds: AuthPersistence.AuthDocs, users: UserPersistence.UserDocs,
                                email: Option<string>, password: Option<string>, name: Option<string>,
                                h: Hasher, iss: Issuer, now: Time, userKey: string)
    requires StoresValid(creds, users) && userKey != "" && Linked(creds, users)
    ensures var o := RegisterLinkedIn(creds, users, email, password, name, h, iss, now, userKey);
            Linked(o.creds, o.users)
  {
    if Email.Create(email).Ok? && Password.Create(password).Ok? {
      var vo := Email.Create(email).value;
      RegisterValidates(creds, users, email, password, name, h, iss, now, userKey, userKey);
      ValidatedLinkedKeepsLink(creds, users, vo.value, password.value, DisplayName(name, vo), h, iss, now, userKey);
    }
  }

  /** Past validation, with the credential under the user's id the returned
      refresh token is accepted for seven days and the new user can log out. */
  lemma ValidatedLinkedThenRefresh(creds: AuthPersistence.AuthDocs, users: UserPersistence.UserDocs,
                                   email: string, password: string, name: string,
                                   h: Hasher, iss: Issuer, now: Time, userKey: string, later: Time)
    requires StoresValid(creds, users) && userKey != "" && IssuerSound(iss)
    requires Email.Create(Some(email)) == Ok(Email.EmailVO(email))
    requires RegisterValidatedIn(creds, users, email, password, name, h, iss, now, userKey, userKey).result.Ok?
    requires now <= later < now + 7 * SECONDS_PER_DAY
    ensures var o := RegisterValidatedIn(creds, users, email, password, name, h, iss, now, userKey, userKey);
            && RefreshIn(o.creds, o.result.value.data.value.refreshToken, iss, later).0.Ok?
            && LogoutIn(o.creds, userKey).0.Ok?
  {
    RegisteredState(creds, users, email, password, name, h, iss, now, userKey, userKey);
    RefreshTokenLasts(iss, Claims(userKey, email), now, later);
  }

  /** With the corrected register, the returned refresh token is accepted for
      seven days and the new user can log out. */
  lemma RegisterLinkedThenRefresh(creds: AuthPersistence.AuthDocs, users: UserPersistence.UserDocs,
                                  email: Option<string>, password: Option<string>, name: Option<string>,
                                  h: Hasher, iss: Issuer, now: Time, userKey: string, later: Time)
    requires StoresValid(creds, users) && userKey != "" && IssuerSound(iss)
    requires Email.Create(email).Ok? && Password.Create(password).Ok?
    requires RegisterLinkedIn(creds, users, email, password, name, h, iss, now, userKey).result.Ok?
    requires now <= later < now + 7 * SECONDS_PER_DAY
    ensures var o := RegisterLinkedIn(creds, users, email, password, name, h, iss, now, userKey);
            && RefreshIn(o.creds, o.result.value.data.value.refreshToken, iss, later).0.Ok?
            && LogoutIn(o.creds, userKey).0.Ok?
  {
    var vo := Email.Create(email).value;
    RegisterValidates(creds, users, email, password, name, h, iss, now, userKey, userKey);
    ValidatedLinkedThenRefresh(creds, users, vo.value, password.value, DisplayName(name, vo), h, iss, now, userKey, later);
  }

  /** While credentials are linked to their users, the refresh token login
      returns is accepted for seven days. */
  lemma LoginThenRefresh(creds: AuthPersistence.AuthDocs, users: UserPersistence.UserDocs,
                         email: Option<string>, password: string, h: Hasher, iss: Issuer, now: Time, later: Time)
    requires StoresValid(creds, users) && Linked(creds, users) && IssuerSound(iss)
    requires LoginIn(creds, users, email, password, h, iss, now).result.Ok?
    requires now <= later < now + 7 * SECONDS_PER_DAY
    ensures var o := LoginIn(creds, users, email, password, h, iss, now);
            RefreshIn(o.creds, o.result.value.data.value.refreshToken, iss, later).0.Ok?
  {
    var v := Email.Create(email).value.value;
    LoginSucceeds(creds, users, email, password, h, iss, now);
    var k := CredentialKey(creds, v);
    var reply := GetUserByEmailIn(users, v, now);
    assert reply.id == k;
    RefreshTokenLasts(iss, Claims(k, v), now, later);
  }

  /** As written, the link fails for login too: when no credential is stored
      under the id of the user login replies with, as after a register whose
      credential key is not the user's id, the refresh token login returns is
      refused and changes nothing. */
  lemma LoginThenRefreshRejected(creds: AuthPersistence.AuthDocs, users: UserPersistence.UserDocs,
                                 email: Option<string>, password: string, h: Hasher, iss: Issuer,
                                 now: Time, later: Time)
    requires StoresValid(creds, users) && IssuerSound(iss)
    requires LoginIn(creds, users, email, password, h, iss, now).result.Ok?
    requires LoginIn(creds, users, email, password, h, iss, now).result.value.data.value.user.id !in creds
    requires now <= later < now + 7 * SECONDS_PER_DAY
    ensures var o := LoginIn(creds, users, email, password, h, iss, now);
            RefreshIn(o.creds, o.result.value.data.value.refreshToken, iss, later) == (Err(InvalidRefreshToken), o.creds)
  {
    var v := Email.Create(email).value.value;
    LoginSucceeds(creds, users, email, password, h, iss, now);
    var o := LoginIn(creds, users, email, password, h, iss, now);
    var u := o.result.value.data.value.user;
    RefreshTokenLasts(iss, Claims(u.id, v), now, later);
    assert u.id !in o.creds;
  }

  // ------------------------------------------------------- last-login time

  /** As written, login stores only the refresh token: the stored credential
      keeps its old last-login time, although the entity the handler updated
      holds `now`. */
  lemma LoginLeavesLastLoginStale(creds: AuthPersistence.AuthDocs, users: UserPersistence.UserDocs,
                                  email: Option<string>, password: string, h: Hasher, iss: Issuer, now: Time)
    requires StoresValid(creds, users)
    requires LoginIn(creds, users, email, password, h, iss, now).result.Ok?
    ensures var o := LoginIn(creds, users, email, password, h, iss, now);
            var k := CredentialKey(creds, Email.Create(email).value.value);
            var entity := WithLastLogin(WithRefreshToken(AuthPersistence.ToDomain(k, creds[k]),
                                                         Some(o.result.value.data.value.refreshToken)), now);
            && o.creds[k].lastLoginAt == creds[k].lastLoginAt
            && (creds[k].lastLoginAt != Some(now) ==> o.creds[k] != AuthPersistence.ToPersistence(entity))
  {
    LoginSucceeds(creds, users, email, password, h, iss, now);
  }

  /** Login that also stores the last-login time it sets on the entity. */
  ghost function LoginRecordingIn(creds: AuthPersistence.AuthDocs, users: UserPersistence.UserDocs,
                                  email: Option<string>, password: string,
                                  h: Hasher, iss: Issuer, now: Time): (o: Outcome<ApiResponse<Session>>)
    requires StoresValid(creds, users)
    ensures o.result == LoginIn(creds, users, email, password, h, iss, now).result && o.users == users
    ensures o.result.Err? ==> o.creds == creds
  {
    var l := LoginIn(creds, users, email, password, h, iss, now);
    if l.result.Ok? then
      LoginStoresToken(creds, users, email, password, h, iss, now);
      var k := CredentialKey(creds, Email.Create(email).value.value);
      l.(creds := l.creds[k := l.creds[k].(lastLoginAt := Some(now))])
    else l
  }

  /** With the corrected login the stored credential is exactly the entity the
      handler updated: the new refresh token and the last-login time `now`. */
  lemma LoginRecordingStoresEntity(creds: AuthPersistence.AuthDocs, users: UserPersistence.UserDocs,
                                   email: Option<string>, password: string, h: Hasher, iss: Issuer, now: Time)
    requires StoresValid(creds, users)
    requires LoginRecordingIn(creds, users, email, password, h, iss, now).result.Ok?
    ensures var o := LoginRecordingIn(creds, users, email, password, h, iss, now);
            var k := CredentialKey(creds, Email.Create(email).value.value);
            var entity := WithLastLogin(WithRefreshToken(AuthPersistence.ToDomain(k, creds[k]),
                                                         Some(o.result.value.data.value.refreshToken)), now);
            && o.creds == creds[k := AuthPersistence.ToPersistence(entity)]
            && o.creds[k].lastLoginAt == Some(now)
  {
    LoginStoresToken(creds, users, email, password, h, iss, now);
    var o := LoginRecordingIn(creds, users, email, password, h, iss, now);
    var k := CredentialKey(creds, Email.Create(email).value.value);
    var l := LoginIn(creds, users, email, password, h, iss, now);
    RecordedCreds(creds, l.creds, k, Some(l.result.value.data.value.refreshToken), now);
  }

  /** Setting the last-login time on the credential that just got the refresh
      token stores the entity with both. */
  lemma RecordedCreds(creds: AuthPersistence.AuthDocs, after: AuthPersistence.AuthDocs, k: string,
                      rt: Option<string>, t: Time)
    requires k in creds && after == creds[k := creds[k].(refreshToken := rt)]
    ensures after[k := after[k].(lastLoginAt := Some(t))]
            == creds[k := AuthPersistence.ToPersistence(WithLastLogin(WithRefreshToken(AuthPersistence.ToDomain(k, creds[k]), rt), t))]
  {
    StoredLogin(k, creds[k], rt, t);
  }

  /** A successful login changes the credential of the email in its refresh
      token alone. */
  lemma LoginStoresToken(creds: AuthPersistence.AuthDocs, users: UserPersistence.UserDocs,
                         email: Option<string>, password: string, h: Hasher, iss: Issuer, now: Time)
    requires StoresValid(creds, users)
    requires LoginIn(creds, users, email, password, h, iss, now).result.Ok?
    ensures var l := LoginIn(creds, users, email, password, h, iss, now);
            && Email.Create(email).Ok? && AuthPersistence.EmailTaken(creds, Email.Create(email).value.value)
            && var k := CredentialKey(creds, Email.Create(email).value.value);
               l.creds == creds[k := creds[k].(refreshToken := Some(l.result.value.data.value.refreshToken))]
  {
    LoginSucceeds(creds, users, email, password, h, iss, now);
  }

  /** The document of a credential read from the store, given a refresh token
      and a last-login time, is the stored document with those two fields. */
  lemma StoredLogin(k: string, d: AuthPersistence.AuthDoc, rt: Option<string>, t: Time)
    ensures AuthPersistence.ToPersistence(WithLastLogin(WithRefreshToken(AuthPersistence.ToDomain(k, d), rt), t))
            == d.(refreshToken := rt, lastLoginAt := Some(t))
  {
  }
}
