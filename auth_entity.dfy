/** The credential record of the auth service: an email, a password hash, the
    refresh token currently accepted for the account, and the last login time.
    Its methods update one field each. */
module AuthDomain {
  import opened Common

  /** A snapshot of the entity's fields; `id` is unset until a store or an
      orchestrator assigns one. */
  datatype AuthRecord = AuthRecord(id: Option<string>, email: string, password: string,
                                   refreshToken: Option<string>, lastLoginAt: Option<Time>)

  /** What `create` builds: the given email and password, no id, no token, no
      login time. */
  function NewRecord(email: string, password: string): (r: AuthRecord)
    ensures r.email == email && r.password == password
    ensures r.id.None? && r.refreshToken.None? && r.lastLoginAt.None?
  {
    AuthRecord(None, email, password, None, None)
  }

  /** The record with its refresh token replaced and every other field kept. */
  function WithRefreshToken(r: AuthRecord, token: Option<string>): (s: AuthRecord)
    ensures s.refreshToken == token
    ensures s.(refreshToken := r.refreshToken) == r
  {
    r.(refreshToken := token)
  }

  /** The record with its last login time set to `now` and every other field kept. */
  function WithLastLogin(r: AuthRecord, now: Time): (s: AuthRecord)
    ensures s.lastLoginAt == Some(now)
    ensures s.(lastLoginAt := r.lastLoginAt) == r
  {
    r.(lastLoginAt := Some(now))
  }

  /** The record after logging out: no refresh session. */
  function LoggedOut(r: AuthRecord): (s: AuthRecord)
    ensures s.refreshToken.None?
    ensures s.(refreshToken := r.refreshToken) == r
  {
    r.(refreshToken := None)
  }

  /** Logging out is clearing the refresh token. */
  lemma LogoutClearsToken(r: AuthRecord)
    ensures LoggedOut(r) == WithRefreshToken(r, None)
  {
  }

  /** Logging out twice is logging out once. */
  lemma LogoutIdempotent(r: AuthRecord)
    ensures LoggedOut(LoggedOut(r)) == LoggedOut(r)
  {
  }

  /** The last token written wins: two successive token updates leave only the
      second one. */
  lemma LastTokenWins(r: AuthRecord, t1: Option<string>, t2: Option<string>)
    ensures WithRefreshToken(WithRefreshToken(r, t1), t2) == WithRefreshToken(r, t2)
  {
  }

  /** The token and the login time are independent fields. */
  lemma TokenAndLoginCommute(r: AuthRecord, t: Option<string>, now: Time)
    ensures WithLastLogin(WithRefreshToken(r, t), now) == WithRefreshToken(WithLastLogin(r, now), t)
  {
  }

  class AuthEntity {
    var id: Option<string>
    var email: string
    var password: string
    var refreshToken: Option<string>
    var lastLoginAt: Option<Time>

    function Record(): AuthRecord
      reads this
    {
      AuthRecord(id, email, password, refreshToken, lastLoginAt)
    }

    /** `AuthEntity.create`: no validation, the given email and password kept as they are. */
    constructor Create(email: string, password: string)
      ensures Record() == NewRecord(email, password)
    {
      this.id := None;
      this.email := email;
      this.password := password;
      this.refreshToken := None;
      this.lastLoginAt := None;
    }

    /** An entity holding the fields of `r`, as a mapper builds one. */
    constructor FromRecord(r: AuthRecord)
      ensures Record() == r
    {
      this.id := r.id;
      this.email := r.email;
      this.password := r.password;
      this.refreshToken := r.refreshToken;
      this.lastLoginAt := r.lastLoginAt;
    }

    /** The orchestrator's `auth.id = …` assignment. */
    method AssignId(newId: string)
      modifies this
      ensures Record() == old(Record()).(id := Some(newId))
    {
      id := Some(newId);
    }

    method UpdateRefreshToken(token: Option<string>)
      modifies this
      ensures Record() == WithRefreshToken(old(Record()), token)
    {
      refreshToken := token;
    }

    /** `updateLastLogin`, at clock reading `now`. */
    method UpdateLastLogin(now: Time)
      modifies this
      ensures Record() == WithLastLogin(old(Record()), now)
    {
      lastLoginAt := Some(now);
    }

    method Logout()
      modifies this
      ensures Record() == LoggedOut(old(Record()))
    {
      refreshToken := None;
    }
  }
}
