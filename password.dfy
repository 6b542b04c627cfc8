/** The password value object: a password is kept only when it has at least
    eight characters, all drawn from letters, digits and `@$!%*?&`, with at
    least one lower-case letter, one upper-case letter and one digit. */
module Password {
  import opened Common
  import opened Text
  import opened Exceptions

  const MIN_LENGTH: nat := 8

  predicate IsPasswordChar(c: char) {
    IsAlnum(c) || c in "@$!%*?&"
  }

  predicate HasLower(p: string) { exists i :: 0 <= i < |p| && IsLower(p[i]) }
  predicate HasUpper(p: string) { exists i :: 0 <= i < |p| && IsUpper(p[i]) }
  predicate HasDigit(p: string) { exists i :: 0 <= i < |p| && IsDigit(p[i]) }

  /** The password pattern: the three look-aheads and the character class
      repeated at least eight times. */
  predicate IsValidPassword(p: string) {
    && |p| >= MIN_LENGTH
    && (forall i :: 0 <= i < |p| ==> IsPasswordChar(p[i]))
    && HasLower(p) && HasUpper(p) && HasDigit(p)
  }

  datatype PasswordVO = PasswordVO(value: string)

  /** The text a pattern test sees: an undefined argument is tested as the
      string "undefined". */
  function AsTested(password: Option<string>): (s: string)
    ensures password.Some? ==> s == password.value
  {
    if password.Some? then password.value else "undefined"
  }

  /** The constructor: the password is kept unchanged when it matches the
      pattern, and InvalidPasswordException with its default message is raised
      otherwise. */
  function Create(password: Option<string>): (r: Result<PasswordVO, Exception>)
    ensures r.Ok? <==> password.Some? && IsValidPassword(password.value)
    ensures r.Ok? ==> r.value.value == password.value
    ensures r.Err? ==> r.error == InvalidPasswordException(None, None)
                       && r.error.message == PasswordRulesMessage && r.error.code == INVALID_PASSWORD
  {
    if IsValidPassword(AsTested(password)) then
      if password.Some? then Ok(PasswordVO(password.value))
      else assert false; Err(InvalidPasswordException(None, None))
    else Err(InvalidPasswordException(None, None))
  }

  /** The string an undefined password is tested as has no upper-case letter
      or digit, so it is rejected. */
  lemma UndefinedRejected()
    ensures !IsValidPassword(AsTested(None))
  {
    var u := "undefined";
    assert forall i :: 0 <= i < |u| ==> !IsUpper(u[i]);
  }

  /** A valid password holds no whitespace, so trimming never changes one. */
  lemma ValidHasNoWhitespace(p: string)
    requires IsValidPassword(p)
    ensures Trim(p) == p
    ensures forall i :: 0 <= i < |p| ==> !IsWhitespace(p[i])
  {
    forall i | 0 <= i < |p|
      ensures !IsWhitespace(p[i])
    {
      PasswordCharIsNotWhitespace(p[i]);
    }
    TrimOfTrimmed(p);
  }

  lemma PasswordCharIsNotWhitespace(c: char)
    requires IsPasswordChar(c)
    ensures !IsWhitespace(c)
  {
  }

  lemma Examples()
    ensures Create(Some("Abcd1234")).Ok?
    ensures Create(Some("abcd1234")).Err?
    ensures Create(Some("Abc123")).Err?
    ensures Create(Some("Abcd 1234")).Err?
    ensures Create(None).Err?
  {
    var good := "Abcd1234";
    assert IsLower(good[1]) && IsUpper(good[0]) && IsDigit(good[4]);
    var noUpper := "abcd1234";
    assert forall i :: 0 <= i < |noUpper| ==> !IsUpper(noUpper[i]);
    var spaced := "Abcd 1234";
    assert !IsPasswordChar(spaced[4]);
    UndefinedRejected();
  }
}
