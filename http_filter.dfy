/** The global exception filter: the code-to-status table, the status choice
    for the project's own exceptions (class first, then code, then 422), and
    the response shape written for each kind of error. */
module HttpFilter {
  import opened Common
  import opened Exceptions
  import opened Responses

  const CodeToHttpStatus: map<string, int> := map[
    ENTITY_NOT_FOUND := 404, USER_NOT_FOUND := 404,
    ENTITY_ALREADY_EXISTS := 409, USER_ALREADY_EXISTS := 409, AGGREGATE_VERSION_CONFLICT := 409,
    INVALID_CREDENTIALS := 401, TOKEN_EXPIRED := 401, UNAUTHORIZED := 401,
    VALIDATION_ERROR := 400, INVALID_EMAIL := 400, INVALID_PASSWORD := 400, INVALID_NAME := 400,
    INVALID_OPERATION := 400]

  /** The code table maps every exception code except DOMAIN_ERROR, and only
      exception codes, each to one of the four client-error statuses. */
  lemma CodeTableCoversCodes()
    ensures forall c :: c in ExceptionCode ==> (c in CodeToHttpStatus <==> c != DOMAIN_ERROR)
    ensures forall c :: c in CodeToHttpStatus ==> c in ExceptionCode
    ensures forall c :: c in CodeToHttpStatus ==> CodeToHttpStatus[c] in {400, 401, 404, 409}
  {
  }

  /** The names of the framework's `HttpStatus` enumeration, for the statuses
      listed here. */
  const StatusNames: map<int, string> := map[
    200 := "OK", 201 := "CREATED", 202 := "ACCEPTED", 204 := "NO_CONTENT",
    301 := "MOVED_PERMANENTLY", 302 := "FOUND", 304 := "NOT_MODIFIED",
    400 := "BAD_REQUEST", 401 := "UNAUTHORIZED", 403 := "FORBIDDEN", 404 := "NOT_FOUND",
    405 := "METHOD_NOT_ALLOWED", 406 := "NOT_ACCEPTABLE", 408 := "REQUEST_TIMEOUT", 409 := "CONFLICT",
    410 := "GONE", 413 := "PAYLOAD_TOO_LARGE", 415 := "UNSUPPORTED_MEDIA_TYPE", 418 := "I_AM_A_TEAPOT",
    422 := "UNPROCESSABLE_ENTITY", 429 := "TOO_MANY_REQUESTS",
    500 := "INTERNAL_SERVER_ERROR", 501 := "NOT_IMPLEMENTED", 502 := "BAD_GATEWAY",
    503 := "SERVICE_UNAVAILABLE", 504 := "GATEWAY_TIMEOUT"]

  /** `HttpStatus[status]`: the enumeration name, or `undefined`. */
  function StatusName(status: int): Option<string> {
    if status in StatusNames then Some(StatusNames[status]) else None
  }

  /** `getHttpStatus`: the base class decides first; only a plain DomainException
      is mapped by its code, and an unmapped code is 422. */
  function GetHttpStatus(e: Exception): (status: int)
    ensures e.kind.NotFoundKind? ==> status == 404
    ensures e.kind.ConflictKind? ==> status == 409
    ensures e.kind.UnauthorizedKind? ==> status == 401
    ensures e.kind.BadRequestKind? || e.kind.ValidationKind? ==> status == 400
    ensures e.kind.DomainKind? && e.code in CodeToHttpStatus ==> status == CodeToHttpStatus[e.code]
    ensures status == 422 <==> e.kind.DomainKind? && e.code !in CodeToHttpStatus
    ensures status in {400, 401, 404, 409, 422}
  {
    match e.kind
    case NotFoundKind => 404
    case ConflictKind => 409
    case UnauthorizedKind => 401
    case BadRequestKind => 400
    case ValidationKind(_) => 400
    case DomainKind => if e.code in CodeToHttpStatus then CodeToHttpStatus[e.code] else 422
  }

  /** For the concrete exceptions with their default codes, the class and the
      code table give the same status, so the precedence never shows. */
  lemma ClassAndCodeAgree(identifier: Option<string>, email: Option<string>, message: Option<string>,
                          name: Option<string>, errors: seq<FieldError>, details: Option<Details>)
    ensures Agree(UserNotFoundException(identifier))
    ensures Agree(UserAlreadyExistsException(email, None))
    ensures Agree(InvalidEmailException(email, None))
    ensures Agree(InvalidPasswordException(message, None))
    ensures Agree(InvalidCredentialsException(None))
    ensures Agree(TokenExpiredException(None))
    ensures Agree(InvalidNameException(name))
    ensures Agree(ValidationException(errors, details))
  {
    UserExceptionsAgree(identifier, email);
    CredentialExceptionsAgree(email, message, name);
    ValidationAgrees(errors, details);
  }

  lemma UserExceptionsAgree(identifier: Option<string>, email: Option<string>)
    ensures Agree(UserNotFoundException(identifier))
    ensures Agree(UserAlreadyExistsException(email, None))
  {
    assert UserNotFoundException(identifier).kind == NotFoundKind;
    assert UserAlreadyExistsException(email, None).kind == ConflictKind;
  }

  lemma CredentialExceptionsAgree(email: Option<string>, message: Option<string>, name: Option<string>)
    ensures Agree(InvalidEmailException(email, None))
    ensures Agree(InvalidPasswordException(message, None))
    ensures Agree(InvalidCredentialsException(None))
    ensures Agree(TokenExpiredException(None))
    ensures Agree(InvalidNameException(name))
  {
    assert InvalidEmailException(email, None).kind == BadRequestKind;
    assert InvalidPasswordException(message, None).kind == BadRequestKind;
    assert InvalidCredentialsException(None).kind == UnauthorizedKind;
    assert TokenExpiredException(None).kind == UnauthorizedKind;
    assert InvalidNameException(name).kind == BadRequestKind;
  }

  lemma ValidationAgrees(errors: seq<FieldError>, details: Option<Details>)
    ensures Agree(ValidationException(errors, details))
  {
    var e := ValidationException(errors, details);
    assert e.kind.ValidationKind? && e.code == VALIDATION_ERROR;
  }

  /** The exception's code is in the code table, which gives the status its
      class gives. */
  predicate Agree(e: Exception) {
    e.code in CodeToHttpStatus && GetHttpStatus(e) == CodeToHttpStatus[e.code]
  }

  /** Where the two disagree the class wins: a NotFound-coded Unauthorized
      exception is 401, while a plain DomainException is mapped by its code, and
      by default (DOMAIN_ERROR) is 422. */
  lemma ClassTakesPrecedence(message: string)
    ensures GetHttpStatus(UnauthorizedException(Some(message), Some(USER_NOT_FOUND), None)) == 401
    ensures GetHttpStatus(DomainException(message, Some(USER_ALREADY_EXISTS), None)) == 409
    ensures GetHttpStatus(DomainException(message, None, None)) == 422
  {
  }

  /** What the filter writes: the status and the JSON body, plus `errors` for a
      ValidationException. */
  datatype FilterResponse = FilterResponse(status: int, body: ApiResponse<()>, errors: Option<seq<FieldError>>)

  /** `catch`: the response for each kind of thrown error, at clock reading `now`
      for a request to `path`. */
  function Catch(f: Failure, now: Time, path: string): (r: FilterResponse)
    ensures r.status == r.body.status && r.body.data.None? && r.body.timestamp == now && r.body.path == Some(path)
    ensures f.Raised? ==> && r.status == GetHttpStatus(f.exception) && !r.body.success
                          && r.body.message == Some(f.exception.message)
                          && r.body.error == Some(f.exception.name)
                          && r.body.code == Some(f.exception.code)
                          && r.body.details == f.exception.details
                          && (r.errors.Some? <==> f.exception.kind.ValidationKind?)
                          && (f.exception.kind.ValidationKind? ==> r.errors.value == f.exception.kind.errors)
    ensures f.Http? ==> && r.status == f.status && (r.body.success <==> f.status < 400)
                        && r.body.code.None? && r.body.details.None? && r.errors.None?
                        && r.body.message == Some(if f.response.ObjectBody? && f.response.message.Some?
                                                  then f.response.message.value else f.message)
                        && r.body.error == (if f.response.ObjectBody? && f.response.error.Some?
                                            then f.response.error else StatusName(f.status))
    ensures f.Crash? ==> && r.status == 500 && !r.body.success
                         && r.body.code.None? && r.body.details.None? && r.errors.None?
                         && r.body.message == Some(if f.message == "" then "Internal server error" else f.message)
                         && r.body.error == Some("INTERNAL_SERVER_ERROR")
  {
    match f
    case Raised(e) =>
      var status := GetHttpStatus(e);
      FilterResponse(status,
                     ApiResponse(status, false, None, Some(e.message), Some(e.name), Some(e.code), e.details,
                                 now, Some(path)),
                     if e.kind.ValidationKind? then Some(e.kind.errors) else None)
    case Http(status, response, message) =>
      var text := if response.ObjectBody? && response.message.Some? then response.message.value else message;
      var error := if response.ObjectBody? && response.error.Some? then response.error else StatusName(status);
      FilterResponse(status, ApiResponse(status, status < 400, None, Some(text), error, None, None, now, Some(path)),
                     None)
    case Crash(message) =>
      FilterResponse(500,
                     ApiResponse(500, false, None,
                                 Some(if message == "" then "Internal server error" else message),
                                 Some("INTERNAL_SERVER_ERROR"), None, None, now, Some(path)),
                     None)
  }

  /** The error every refresh-token failure surfaces as reaches the client as a
      401 with the message "Invalid refresh token". */
  lemma RefreshFailureIs401(now: Time, path: string)
    ensures var r := Catch(HttpUnauthorized("Invalid refresh token"), now, path);
            && r.status == 401 && !r.body.success
            && r.body.message == Some("Invalid refresh token") && r.body.error == Some("Unauthorized")
  {
  }
}
