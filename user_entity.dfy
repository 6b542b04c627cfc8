/** The user entity of the user service: a display name of at least two UTF-16
    code units, a normalized email, timestamps and a soft-delete marker. */
module UserDomain {
  import opened Common
  import opened Text
  import opened Exceptions
  import Email

  /** The entity's six fields, which are also what it persists. */
  datatype UserProps = UserProps(id: Option<string>, email: string, name: string,
                                 createdAt: Time, updatedAt: Time, deletedAt: Option<Time>)

  const NAME_MIN_LENGTH: nat := 2

  /** What every user built by `create` or changed by `updateEmail` holds. */
  predicate WellFormed(p: UserProps) {
    && Email.Valid(Email.EmailVO(p.email))
    && Trim(p.name) == p.name && Utf16Length(p.name) >= NAME_MIN_LENGTH
  }

  /** `UserEntity.create`: the name is checked first (missing, empty, or shorter
      than two UTF-16 code units once trimmed raises InvalidNameException with
      the name as given), then the email is validated; the entity keeps the trimmed name
      and the normalized email, is stamped with `now` and is not deleted. */
  function CreateProps(email: Option<string>, name: Option<string>, now: Time): (r: Result<UserProps, Exception>)
    ensures (!Truthy(name) || Utf16Length(Trim(name.value)) < NAME_MIN_LENGTH) ==> r == Err(InvalidNameException(name))
    ensures Truthy(name) && Utf16Length(Trim(name.value)) >= NAME_MIN_LENGTH && Email.Create(email).Err? ==>
              r == Err(Email.Create(email).error)
    ensures r.Ok? <==> Truthy(name) && Utf16Length(Trim(name.value)) >= NAME_MIN_LENGTH && Email.Create(email).Ok?
    ensures r.Ok? ==> r.value == UserProps(None, Email.Create(email).value.value, Trim(name.value), now, now, None)
  {
    if !Truthy(name) || Utf16Length(Trim(name.value)) < NAME_MIN_LENGTH then Err(InvalidNameException(name))
    else
      match Email.Create(email)
      case Err(e) => Err(e)
      case Ok(vo) => Ok(UserProps(None, vo.value, Trim(name.value), now, now, None))
  }

  /** Every user `create` builds is well formed. */
  lemma CreateWellFormed(email: Option<string>, name: Option<string>, now: Time)
    requires CreateProps(email, name, now).Ok?
    ensures WellFormed(CreateProps(email, name, now).value)
  {
    var p := CreateProps(email, name, now).value;
    assert Email.Valid(Email.EmailVO(p.email)) by {
      Email.CreateValid(email);
      assert Email.EmailVO(p.email) == Email.Create(email).value;
    }
    assert Trim(p.name) == p.name by {
      TrimIdempotent(name.value);
    }
  }

  /** The name rule counts UTF-16 code units, as JavaScript's `length` does:
      a name of one character outside the Basic Multilingual Plane takes two
      of them and is long enough. */
  lemma AstralNameAccepted(email: Option<string>, now: Time)
    requires Email.Create(email).Ok?
    ensures CreateProps(email, Some("\U{1F600}"), now).Ok?
  {
    NameUnits("\U{1F600}");
  }

  /** A name of one letter is one code unit, too short for the name rule. */
  lemma OneLetterNameRefused(email: Option<string>, now: Time)
    ensures CreateProps(email, Some("a"), now) == Err(InvalidNameException(Some("a")))
  {
    NameUnits("a");
  }

  /** The trimmed code units of a one-character name without whitespace. */
  lemma NameUnits(n: string)
    requires |n| == 1 && !IsWhitespace(n[0])
    ensures Utf16Length(Trim(n)) == Utf16Units(n[0])
  {
    TrimOfTrimmed(n);
    assert n[1..] == [];
  }

  /** `ensureNotDeleted`: a deleted user raises DomainException with code
      ENTITY_NOT_FOUND and the user's id in its details. */
  function DeletedGuard(p: UserProps): (e: Option<Exception>)
    ensures e.Some? <==> p.deletedAt.Some?
    ensures e.Some? ==> && e.value.kind == DomainKind && e.value.code == ENTITY_NOT_FOUND
                        && e.value.message == "Cannot modify deleted user"
  {
    if p.deletedAt.Some? then
      Some(DomainException("Cannot modify deleted user", Some(ENTITY_NOT_FOUND),
                           Some(if p.id.Some? then map["userId" := p.id.value] else map[])))
    else None
  }

  /** `updateEmail`: a deleted user or an invalid email raises and changes
      nothing; the same normalized email changes nothing, `updatedAt` included;
      a new one replaces the email and stamps `updatedAt`. */
  function UpdateEmailProps(p: UserProps, newEmail: Option<string>, now: Time): (res: (Result<(), Exception>, UserProps))
    ensures p.deletedAt.Some? ==> res == (Err(DeletedGuard(p).value), p)
    ensures p.deletedAt.None? && Email.Create(newEmail).Err? ==> res == (Err(Email.Create(newEmail).error), p)
    ensures res.0.Ok? <==> p.deletedAt.None? && Email.Create(newEmail).Ok?
    ensures res.0.Ok? ==> var v := Email.Create(newEmail).value.value;
                          res.1 == if v == p.email then p else p.(email := v, updatedAt := now)
  {
    var guard := DeletedGuard(p);
    if guard.Some? then (Err(guard.value), p)
    else
      match Email.Create(newEmail)
      case Err(e) => (Err(e), p)
      case Ok(vo) =>
        if p.email == vo.value then (Ok(()), p)
        else (Ok(()), p.(email := vo.value, updatedAt := now))
  }

  /** `delete`: a deleted user raises; otherwise `deletedAt` and `updatedAt`
      become `now`. */
  function DeleteProps(p: UserProps, now: Time): (res: (Result<(), Exception>, UserProps))
    ensures p.deletedAt.Some? ==> res == (Err(DeletedGuard(p).value), p)
    ensures p.deletedAt.None? ==> res == (Ok(()), p.(deletedAt := Some(now), updatedAt := now))
  {
    var guard := DeletedGuard(p);
    if guard.Some? then (Err(guard.value), p)
    else (Ok(()), p.(deletedAt := Some(now), updatedAt := now))
  }

  /** Changing the email keeps a user well formed. */
  lemma UpdateEmailKeepsWellFormed(p: UserProps, newEmail: Option<string>, now: Time)
    requires WellFormed(p)
    ensures WellFormed(UpdateEmailProps(p, newEmail, now).1)
  {
    var q := UpdateEmailProps(p, newEmail, now).1;
    assert q.name == p.name;
    assert Email.Valid(Email.EmailVO(q.email)) by {
      if q.email != p.email {
        Email.CreateValid(newEmail);
        assert Email.EmailVO(q.email) == Email.Create(newEmail).value;
      }
    }
  }

  /** Setting the email a user already has, in any case or padding, is a no-op. */
  lemma UpdateEmailSameIsNoop(p: UserProps, newEmail: Option<string>, now: Time)
    requires p.deletedAt.None? && Email.Create(newEmail).Ok? && Email.Create(newEmail).value.value == p.email
    ensures UpdateEmailProps(p, newEmail, now) == (Ok(()), p)
  {
  }

  /** Deleting is not idempotent: the second delete raises and keeps the first
      one's timestamps. */
  lemma DeleteTwiceFails(p: UserProps, t1: Time, t2: Time)
    requires p.deletedAt.None?
    ensures var once := DeleteProps(p, t1).1;
            && once.deletedAt == Some(t1)
            && DeleteProps(once, t2).0.Err?
            && DeleteProps(once, t2).0.error.code == ENTITY_NOT_FOUND
            && DeleteProps(once, t2).1 == once
  {
  }

  /** A deleted user's email can no longer change. */
  lemma DeletedEmailFrozen(p: UserProps, now: Time, newEmail: Option<string>, later: Time)
    requires p.deletedAt.None?
    ensures var gone := DeleteProps(p, now).1;
            UpdateEmailProps(gone, newEmail, later).1 == gone && UpdateEmailProps(gone, newEmail, later).0.Err?
  {
  }

  class UserEntity {
    var id: Option<string>
    var email: string
    var name: string
    var createdAt: Time
    var updatedAt: Time
    var deletedAt: Option<Time>

    /** `toPersistence`: the six fields. */
    function ToPersistence(): UserProps
      reads this
    {
      UserProps(id, email, name, createdAt, updatedAt, deletedAt)
    }

    predicate IsDeleted()
      reads this
    {
      deletedAt.Some?
    }

    /** `fromPersistence`: every field copied; an absent `deletedAt` is null. */
    constructor FromPersistence(p: UserProps)
      ensures ToPersistence() == p
    {
      id := p.id;
      email := p.email;
      name := p.name;
      createdAt := p.createdAt;
      updatedAt := p.updatedAt;
      deletedAt := p.deletedAt;
    }

    /** `UserEntity.create`, at clock reading `now`. */
    static method Create(email: Option<string>, name: Option<string>, now: Time) returns (r: Result<UserEntity, Exception>)
      ensures r.Ok? ==> fresh(r.value)
      ensures (if r.Ok? then Ok(r.value.ToPersistence()) else Err(r.error)) == CreateProps(email, name, now)
    {
      if !Truthy(name) || Utf16Length(Trim(name.value)) < NAME_MIN_LENGTH {
        return Err(InvalidNameException(name));
      }
      var vo := Email.Create(email);
      if vo.Err? {
        return Err(vo.error);
      }
      var user := new UserEntity.FromPersistence(UserProps(None, vo.value.value, Trim(name.value), now, now, None));
      r := Ok(user);
    }

    method EnsureNotDeleted() returns (r: Result<(), Exception>)
      ensures r.Err? <==> DeletedGuard(ToPersistence()).Some?
      ensures r.Err? ==> r.error == DeletedGuard(ToPersistence()).value
    {
      if IsDeleted() {
        r := Err(DeletedGuard(ToPersistence()).value);
      } else {
        r := Ok(());
      }
    }

    /** `updateEmail`, at clock reading `now`. */
    method UpdateEmail(newEmail: Option<string>, now: Time) returns (r: Result<(), Exception>)
      modifies this
      ensures (r, ToPersistence()) == UpdateEmailProps(old(ToPersistence()), newEmail, now)
    {
      r := EnsureNotDeleted();
      if r.Err? {
        return;
      }
      var vo := Email.Create(newEmail);
      if vo.Err? {
        return Err(vo.error);
      }
      r := Ok(());
      var v := vo.value.value;
      if email == v {
        return;
      }
      email := v;
      updatedAt := now;
    }

    /** `delete`, at clock reading `now`. */
    method Delete(now: Time) returns (r: Result<(), Exception>)
      modifies this
      ensures (r, ToPersistence()) == DeleteProps(old(ToPersistence()), now)
    {
      r := EnsureNotDeleted();
      if r.Err? {
        return;
      }
      deletedAt := Some(now);
      updatedAt := now;
      r := Ok(());
    }
  }
}
