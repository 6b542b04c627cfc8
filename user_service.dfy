/** The user service's application layer: the gRPC controller the auth module
    calls (look up by email, create), the create-user command handler and the
    user-detail query handler. */
module UserApplication {
  import opened Common
  import opened Exceptions
  import opened Responses
  import Email
  import opened UserDomain
  import opened UserPersistence

  /** The `getUserByEmail` reply as the caller reads it. A null reply reaches
      the caller as the message's default values: not found, empty strings. */
  datatype UserByEmailReply = UserByEmailReply(found: bool, id: string, name: string, email: string)

  const NotFoundReply: UserByEmailReply := UserByEmailReply(false, "", "", "")

  ghost function GetUserByEmailIn(docs: UserDocs, email: string, now: Time): (reply: UserByEmailReply)
    requires WellKeyed(docs)
    ensures reply.found <==> EmailTaken(docs, email)
    ensures reply.found ==> && reply.id in docs && reply.email == email
                            && docs[reply.id].email == email && reply.name == docs[reply.id].name
    ensures !reply.found ==> reply == NotFoundReply
  {
    var u := FindByEmailIn(docs, email, now);
    if u.Some? then UserByEmailReply(true, u.value.id.value, u.value.name, u.value.email) else NotFoundReply
  }

  /** The `createUser` reply. */
  datatype CreatedUser = CreatedUser(id: string, email: string, name: string)

  /** `createUser`: a new entity from the request, saved under the key the
      store picks. */
  ghost function CreateUserIn(docs: UserDocs, email: string, name: string, now: Time, newKey: string): (res: (Result<CreatedUser, Failure>, UserDocs))
    requires WellKeyed(docs) && newKey != ""
    ensures WellKeyed(res.1)
    ensures res.0.Err? ==> res.1 == docs
  {
    match CreateProps(Some(email), Some(name), now)
    case Err(e) => (Err(Raised(e)), docs)
    case Ok(p) =>
      var saved := SaveIn(docs, p, newKey, now);
      if saved.0.Err? then (Err(saved.0.error), saved.1)
      else (Ok(CreatedUser(newKey, saved.0.value.email, saved.0.value.name)), saved.1)
  }

  /** `createUser` succeeds exactly when the entity is valid, the generated key
      is free and no user holds the normalised email; the new user is stored
      under that key with the normalised email and the trimmed name. */
  lemma CreateUserOutcome(docs: UserDocs, email: string, name: string, now: Time, newKey: string)
    requires WellKeyed(docs) && newKey != ""
    ensures var res := CreateUserIn(docs, email, name, now, newKey);
            var p := CreateProps(Some(email), Some(name), now);
            && (res.0.Ok? <==> p.Ok? && newKey !in docs && !EmailTaken(docs, p.value.email))
            && (p.Err? ==> res.0 == Err(Raised(p.error)))
            && (res.0.Ok? ==> && res.0.value == CreatedUser(newKey, p.value.email, p.value.name)
                              && res.1 == docs[newKey := DocOf(p.value)])
            && (p.Ok? && res.0.Err? ==> res.0 == Err(Crash(DuplicateKeyMessage)))
  {
  }

  /** `createUser` keeps every user already stored. */
  lemma CreateKeepsUsers(docs: UserDocs, email: string, name: string, now: Time, newKey: string)
    requires WellKeyed(docs) && newKey != ""
    ensures var res := CreateUserIn(docs, email, name, now, newKey);
            forall k :: k in docs ==> k in res.1 && res.1[k] == docs[k]
  {
    CreateUserOutcome(docs, email, name, now, newKey);
  }

  /** A user just created is what a lookup by its email then replies. */
  lemma CreateThenLookup(docs: UserDocs, email: string, name: string, now: Time, newKey: string, later: Time)
    requires WellKeyed(docs) && newKey != ""
    requires CreateUserIn(docs, email, name, now, newKey).0.Ok?
    ensures var res := CreateUserIn(docs, email, name, now, newKey);
            var u := res.0.value;
            GetUserByEmailIn(res.1, u.email, later) == UserByEmailReply(true, u.id, u.name, u.email)
  {
    CreateUserOutcome(docs, email, name, now, newKey);
    var res := CreateUserIn(docs, email, name, now, newKey);
    var r := GetUserByEmailIn(res.1, res.0.value.email, later);
    assert res.1[newKey].email == res.0.value.email;
    assert r.id == newKey;
  }

  /** The message and code of the create handler's duplicate check. */
  function EmailExistsException(email: string): (e: Exception)
    ensures e.kind == DomainKind && e.code == USER_ALREADY_EXISTS && e.message == "Email already exists"
    ensures e.details == Some(map["email" := email])
  {
    DomainException("Email already exists", Some(USER_ALREADY_EXISTS), Some(map["email" := email]))
  }

  /** The create command handler as written: the duplicate check looks the
      payload's email up exactly as given, before the entity normalises it. */
  ghost function UserCreateIn(docs: UserDocs, email: string, name: string, now: Time, newKey: string): (res: (Result<UserProps, Failure>, UserDocs))
    requires WellKeyed(docs) && newKey != ""
    ensures WellKeyed(res.1)
    ensures res.0.Err? ==> res.1 == docs
    ensures EmailTaken(docs, email) ==> res == (Err(Raised(EmailExistsException(email))), docs)
  {
    if EmailTaken(docs, email) then (Err(Raised(EmailExistsException(email))), docs)
    else
      match CreateProps(Some(email), Some(name), now)
      case Err(e) => (Err(Raised(e)), docs)
      case Ok(p) => SaveIn(docs, p, newKey, now)
  }

  /** The create handler as written succeeds exactly when the email as given
      is unknown, the entity is valid, the generated key is free and no user
      holds the normalised email. It then stores exactly one new user, under
      that key, and returns the saved entity with that key as its id. An
      invalid entity fails with its own exception after the duplicate check. */
  lemma UserCreateSucceeds(docs: UserDocs, email: string, name: string, now: Time, newKey: string)
    requires WellKeyed(docs) && newKey != ""
    ensures var res := UserCreateIn(docs, email, name, now, newKey);
            var p := CreateProps(Some(email), Some(name), now);
            && (res.0.Ok? <==> && !EmailTaken(docs, email) && p.Ok? && newKey !in docs
                               && !EmailTaken(docs, p.value.email))
            && (!EmailTaken(docs, email) && p.Err? ==> res == (Err(Raised(p.error)), docs))
            && (res.0.Ok? ==> && res.0.value == p.value.(id := Some(newKey))
                              && res.1 == docs[newKey := DocOf(p.value)])
  {
  }

  /** An email that differs from a stored one only by case or padding passes
      the duplicate check and then fails as a duplicate-key crash (a 500)
      instead of the domain error. */
  lemma UserCreateCaseVariantCrashes(docs: UserDocs, email: string, name: string, now: Time, newKey: string)
    requires WellKeyed(docs) && newKey != "" && newKey !in docs
    requires CreateProps(Some(email), Some(name), now).Ok?
    requires !EmailTaken(docs, email) && EmailTaken(docs, Email.Normalize(email))
    ensures UserCreateIn(docs, email, name, now, newKey) == (Err(Crash(DuplicateKeyMessage)), docs)
  {
  }

  /** The create command handler with the duplicate check on the normalised
      email, the one the store's unique index compares. */
  ghost function UserCreateCheckedIn(docs: UserDocs, email: string, name: string, now: Time, newKey: string): (res: (Result<UserProps, Failure>, UserDocs))
    requires WellKeyed(docs) && newKey != ""
    ensures WellKeyed(res.1)
    ensures res.0.Err? ==> res.1 == docs
  {
    match CreateProps(Some(email), Some(name), now)
    case Err(e) => (Err(Raised(e)), docs)
    case Ok(p) =>
      if EmailTaken(docs, p.email) then (Err(Raised(EmailExistsException(p.email))), docs)
      else SaveIn(docs, p, newKey, now)
  }

  /** With the check on the normalised email, a user that already exists is
      always reported as the domain error, never as a crash. */
  lemma UserCreateCheckedReportsDuplicates(docs: UserDocs, email: string, name: string, now: Time, newKey: string)
    requires WellKeyed(docs) && newKey != "" && newKey !in docs
    ensures var res := UserCreateCheckedIn(docs, email, name, now, newKey);
            var p := CreateProps(Some(email), Some(name), now);
            && (p.Ok? && EmailTaken(docs, p.value.email) ==> res.0 == Err(Raised(EmailExistsException(p.value.email))))
            && (res.0.Err? ==> res.0.error.Raised?)
            && (res.0.Ok? <==> p.Ok? && !EmailTaken(docs, p.value.email))
  {
  }

  /** The user-detail query: the stored user in a success envelope with status
      200, or the not-found exception. */
  function GetDetailIn(docs: UserDocs, id: string, now: Time): (r: Result<ApiResponse<UserProps>, Failure>)
    requires "" !in docs
    ensures r.Err? <==> id !in docs
    ensures r.Err? ==> r.error == Raised(UserNotFoundException(None))
                       && r.error.exception.message == "User not found"
    ensures r.Ok? ==> && r.value.status == 200 && r.value.success
                      && r.value.data == Some(Read(id, docs[id], now)) && r.value.data.value.id == Some(id)
  {
    match FindByIdIn(docs, id, now)
    case None => Err(Raised(UserNotFoundException(None)))
    case Some(p) => Ok(Success(p, Some(200), None, now))
  }

  class UserGrpcController {
    const repo: UserRepository

    constructor (repo: UserRepository)
      ensures this.repo == repo
    {
      this.repo := repo;
    }

    method GetUserByEmail(email: string, now: Time) returns (reply: UserByEmailReply)
      requires repo.Valid()
      ensures reply == GetUserByEmailIn(repo.docs, email, now)
    {
      var user := repo.FindByEmail(email, now);
      if user.None? {
        return NotFoundReply;
      }
      reply := UserByEmailReply(true, user.value.id.value, user.value.name, user.value.email);
    }

    method CreateUser(email: string, name: string, now: Time, newKey: string) returns (r: Result<CreatedUser, Failure>)
      requires repo.Valid() && newKey != ""
      modifies repo
      ensures repo.Valid()
      ensures (r, repo.docs) == CreateUserIn(old(repo.docs), email, name, now, newKey)
    {
      var user := UserEntity.Create(Some(email), Some(name), now);
      if user.Err? {
        return Err(Raised(user.error));
      }
      var saved := repo.Save(user.value, newKey, now);
      if saved.Err? {
        return Err(saved.error);
      }
      r := Ok(CreatedUser(saved.value.id.value, saved.value.email, saved.value.name));
    }
  }

  class UserCreateCommandHandler {
    const repo: UserRepository

    constructor (repo: UserRepository)
      ensures this.repo == repo
    {
      this.repo := repo;
    }

    method Execute(email: string, name: string, now: Time, newKey: string) returns (r: Result<UserEntity, Failure>)
      requires repo.Valid() && newKey != ""
      modifies repo
      ensures repo.Valid()
      ensures r.Ok? ==> fresh(r.value)
      ensures ((if r.Ok? then Ok(r.value.ToPersistence()) else Err(r.error)), repo.docs)
              == UserCreateIn(old(repo.docs), email, name, now, newKey)
    {
      var existing := repo.FindByEmail(email, now);
      if existing.Some? {
        return Err(Raised(EmailExistsException(email)));
      }
      var user := UserEntity.Create(Some(email), Some(name), now);
      if user.Err? {
        return Err(Raised(user.error));
      }
      r := repo.Save(user.value, newKey, now);
    }
  }

  class UserGetDetailHandler {
    const repo: UserRepository

    constructor (repo: UserRepository)
      ensures this.repo == repo
    {
      this.repo := repo;
    }

    method Execute(id: string, now: Time) returns (r: Result<ApiResponse<UserProps>, Failure>)
      requires repo.Valid()
      ensures r == GetDetailIn(repo.docs, id, now)
    {
      var user := repo.FindById(id, now);
      if user.None? {
        return Err(Raised(UserNotFoundException(None)));
      }
      r := Ok(Success(user.value.ToPersistence(), Some(200), None, now));
    }
  }
}
