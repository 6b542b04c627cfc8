/** The error taxonomy: the `ExceptionCode` values, the five base exception
    classes and their defaults, the concrete exceptions built on them, the
    validation exception, and the other kinds of error a handler can surface
    (a framework HTTP exception, or any other thrown error). */
module Exceptions {
  import opened Common
  import Text

  const VALIDATION_ERROR: string := "VALIDATION_ERROR"
  const INVALID_EMAIL: string := "INVALID_EMAIL"
  const INVALID_PASSWORD: string := "INVALID_PASSWORD"
  const INVALID_NAME: string := "INVALID_NAME"
  const INVALID_CREDENTIALS: string := "INVALID_CREDENTIALS"
  const TOKEN_EXPIRED: string := "TOKEN_EXPIRED"
  const UNAUTHORIZED: string := "UNAUTHORIZED"
  const ENTITY_NOT_FOUND: string := "ENTITY_NOT_FOUND"
  const ENTITY_ALREADY_EXISTS: string := "ENTITY_ALREADY_EXISTS"
  const USER_NOT_FOUND: string := "USER_NOT_FOUND"
  const USER_ALREADY_EXISTS: string := "USER_ALREADY_EXISTS"
  const INVALID_OPERATION: string := "INVALID_OPERATION"
  const AGGREGATE_VERSION_CONFLICT: string := "AGGREGATE_VERSION_CONFLICT"

  /** The default code of DomainException; it is not an `ExceptionCode` value. */
  const DOMAIN_ERROR: string := "DOMAIN_ERROR"

  /** The `ExceptionCode` object: key name to code value. */
  const ExceptionCode: map<string, string> := map[
    "VALIDATION_ERROR" := VALIDATION_ERROR, "INVALID_EMAIL" := INVALID_EMAIL,
    "INVALID_PASSWORD" := INVALID_PASSWORD, "INVALID_NAME" := INVALID_NAME,
    "INVALID_CREDENTIALS" := INVALID_CREDENTIALS, "TOKEN_EXPIRED" := TOKEN_EXPIRED,
    "UNAUTHORIZED" := UNAUTHORIZED, "ENTITY_NOT_FOUND" := ENTITY_NOT_FOUND,
    "ENTITY_ALREADY_EXISTS" := ENTITY_ALREADY_EXISTS, "USER_NOT_FOUND" := USER_NOT_FOUND,
    "USER_ALREADY_EXISTS" := USER_ALREADY_EXISTS, "INVALID_OPERATION" := INVALID_OPERATION,
    "AGGREGATE_VERSION_CONFLICT" := AGGREGATE_VERSION_CONFLICT]

  /** Every code is spelled like its key. */
  lemma ExceptionCodeValuesAreKeys()
    ensures forall k :: k in ExceptionCode ==> ExceptionCode[k] == k
  {
  }

  /** The `details` bag of an exception (values are rendered as strings). */
  type Details = map<string, string>

  /** One entry of a ValidationException's `errors`. */
  datatype FieldError = FieldError(field: string, message: string, value: Option<string>,
                                   constraints: Option<map<string, string>>)

  /** The base class an exception extends; it decides every `instanceof` test.
      A ValidationException carries its `errors`. */
  datatype Kind =
    | DomainKind
    | NotFoundKind
    | ConflictKind
    | UnauthorizedKind
    | BadRequestKind
    | ValidationKind(errors: seq<FieldError>)

  /** An instance of ExceptionBase: the name of its class, its kind, its message,
      its code and its optional details. */
  datatype Exception = Exception(name: string, kind: Kind, message: string, code: string,
                                 details: Option<Details>)

  /** What `getResponse()` of a framework HTTP exception returns: a string, or an
      object that may have `message` and `error` keys. */
  datatype HttpResponseBody = TextBody(text: string) | ObjectBody(message: Option<string>, error: Option<string>)

  /** Anything a handler can throw: one of the exceptions above, a framework
      HttpException, or any other error (a storage error, a TypeError, ...). */
  datatype Failure =
    | Raised(exception: Exception)
    | Http(status: int, response: HttpResponseBody, message: string)
    | Crash(message: string)

  // The base classes. Optional arguments are `Option`s; `None` takes the default.

  function DomainException(message: string, code: Option<string>, details: Option<Details>): (e: Exception)
    ensures e.name == "DomainException" && e.kind == DomainKind
    ensures e.message == message && e.details == details
    ensures code.None? ==> e.code == DOMAIN_ERROR
    ensures code.Some? ==> e.code == code.value
  {
    Exception("DomainException", DomainKind, message, OrDefault(code, DOMAIN_ERROR), details)
  }

  function NotFoundException(message: Option<string>, code: Option<string>, details: Option<Details>): (e: Exception)
    ensures e.name == "NotFoundException" && e.kind == NotFoundKind && e.details == details
    ensures message.None? ==> e.message == "Resource not found"
    ensures message.Some? ==> e.message == message.value
    ensures code.None? ==> e.code == ENTITY_NOT_FOUND
    ensures code.Some? ==> e.code == code.value
  {
    Exception("NotFoundException", NotFoundKind, OrDefault(message, "Resource not found"),
              OrDefault(code, ENTITY_NOT_FOUND), details)
  }

  function ConflictException(message: Option<string>, code: Option<string>, details: Option<Details>): (e: Exception)
    ensures e.name == "ConflictException" && e.kind == ConflictKind && e.details == details
    ensures message.None? ==> e.message == "Resource already exists"
    ensures message.Some? ==> e.message == message.value
    ensures code.None? ==> e.code == ENTITY_ALREADY_EXISTS
    ensures code.Some? ==> e.code == code.value
  {
    Exception("ConflictException", ConflictKind, OrDefault(message, "Resource already exists"),
              OrDefault(code, ENTITY_ALREADY_EXISTS), details)
  }

  function UnauthorizedException(message: Option<string>, code: Option<string>, details: Option<Details>): (e: Exception)
    ensures e.name == "UnauthorizedException" && e.kind == UnauthorizedKind && e.details == details
    ensures message.None? ==> e.message == "Unauthorized"
    ensures message.Some? ==> e.message == message.value
    ensures code.None? ==> e.code == UNAUTHORIZED
    ensures code.Some? ==> e.code == code.value
  {
    Exception("UnauthorizedException", UnauthorizedKind, OrDefault(message, "Unauthorized"),
              OrDefault(code, UNAUTHORIZED), details)
  }

  function BadRequestException(message: Option<string>, code: Option<string>, details: Option<Details>): (e: Exception)
    ensures e.name == "BadRequestException" && e.kind == BadRequestKind && e.details == details
    ensures message.None? ==> e.message == "Bad request"
    ensures message.Some? ==> e.message == message.value
    ensures code.None? ==> e.code == VALIDATION_ERROR
    ensures code.Some? ==> e.code == code.value
  {
    Exception("BadRequestException", BadRequestKind, OrDefault(message, "Bad request"),
              OrDefault(code, VALIDATION_ERROR), details)
  }

  // The concrete exceptions.

  /** A NotFound exception whose message names the identifier, and whose details
      exist, exactly when an identifier is given. */
  function UserNotFoundException(identifier: Option<string>): (e: Exception)
    ensures e.name == "UserNotFoundException" && e.kind == NotFoundKind && e.code == USER_NOT_FOUND
    ensures e.details.Some? <==> Truthy(identifier)
    ensures Truthy(identifier) ==>
              e.message == "User with " + identifier.value + " not found"
              && e.details.value == map["identifier" := identifier.value]
    ensures !Truthy(identifier) ==> e.message == "User not found"
  {
    var given := Truthy(identifier);
    NotFoundException(Some(if given then "User with " + identifier.value + " not found" else "User not found"),
                      Some(USER_NOT_FOUND),
                      if given then Some(map["identifier" := identifier.value]) else None)
      .(name := "UserNotFoundException")
  }

  /** A Conflict exception; its message and details embed the email when one is given. */
  function UserAlreadyExistsException(email: Option<string>, code: Option<string>): (e: Exception)
    ensures e.name == "UserAlreadyExistsException" && e.kind == ConflictKind
    ensures code.None? ==> e.code == USER_ALREADY_EXISTS
    ensures code.Some? ==> e.code == code.value
    ensures e.details.Some? <==> Truthy(email)
    ensures Truthy(email) ==>
              e.message == "User with email " + email.value + " already exists"
              && e.details.value == map["email" := email.value]
    ensures !Truthy(email) ==> e.message == "User already exists"
  {
    var given := Truthy(email);
    ConflictException(Some(if given then "User with email " + email.value + " already exists" else "User already exists"),
                      Some(OrDefault(code, USER_ALREADY_EXISTS)),
                      if given then Some(map["email" := email.value]) else None)
      .(name := "UserAlreadyExistsException")
  }

  /** A BadRequest exception; message and details embed the email when one is given. */
  function InvalidEmailException(email: Option<string>, code: Option<string>): (e: Exception)
    ensures e.name == "InvalidEmailException" && e.kind == BadRequestKind
    ensures code.None? ==> e.code == INVALID_EMAIL
    ensures code.Some? ==> e.code == code.value
    ensures e.details.Some? <==> Truthy(email)
    ensures Truthy(email) ==>
              e.message == "Invalid email format: " + email.value
              && e.details.value == map["email" := email.value]
    ensures !Truthy(email) ==> e.message == "Invalid email format"
  {
    var given := Truthy(email);
    BadRequestException(Some(if given then "Invalid email format: " + email.value else "Invalid email format"),
                        Some(OrDefault(code, INVALID_EMAIL)),
                        if given then Some(map["email" := email.value]) else None)
      .(name := "InvalidEmailException")
  }

  const PasswordRulesMessage: string :=
    "Password must be at least 8 characters with 1 uppercase, 1 lowercase, and 1 number"

  /** A BadRequest exception with the password-rules message by default and no details. */
  function InvalidPasswordException(message: Option<string>, code: Option<string>): (e: Exception)
    ensures e.name == "InvalidPasswordException" && e.kind == BadRequestKind && e.details == None
    ensures message.None? ==> e.message == PasswordRulesMessage
    ensures message.Some? ==> e.message == message.value
    ensures code.None? ==> e.code == INVALID_PASSWORD
    ensures code.Some? ==> e.code == code.value
  {
    BadRequestException(Some(OrDefault(message, PasswordRulesMessage)), Some(OrDefault(code, INVALID_PASSWORD)), None)
      .(name := "InvalidPasswordException")
  }

  /** An Unauthorized exception whose message never depends on its argument. */
  function InvalidCredentialsException(code: Option<string>): (e: Exception)
    ensures e.name == "InvalidCredentialsException" && e.kind == UnauthorizedKind && e.details == None
    ensures e.message == "Invalid email or password"
    ensures code.None? ==> e.code == INVALID_CREDENTIALS
    ensures code.Some? ==> e.code == code.value
  {
    UnauthorizedException(Some("Invalid email or password"), Some(OrDefault(code, INVALID_CREDENTIALS)), None)
      .(name := "InvalidCredentialsException")
  }

  function TokenExpiredException(code: Option<string>): (e: Exception)
    ensures e.name == "TokenExpiredException" && e.kind == UnauthorizedKind && e.details == None
    ensures e.message == "Token has expired"
    ensures code.None? ==> e.code == TOKEN_EXPIRED
    ensures code.Some? ==> e.code == code.value
  {
    UnauthorizedException(Some("Token has expired"), Some(OrDefault(code, TOKEN_EXPIRED)), None)
      .(name := "TokenExpiredException")
  }

  /** A BadRequest exception with a fixed message; details hold the name when it is truthy. */
  function InvalidNameException(name: Option<string>): (e: Exception)
    ensures e.name == "InvalidNameException" && e.kind == BadRequestKind && e.code == INVALID_NAME
    ensures e.message == "Name must be at least 2 characters"
    ensures e.details.Some? <==> Truthy(name)
    ensures Truthy(name) ==> e.details.value == map["name" := name.value]
  {
    BadRequestException(Some("Name must be at least 2 characters"), Some(INVALID_NAME),
                        if Truthy(name) then Some(map["name" := name.value]) else None)
      .(name := "InvalidNameException")
  }

  /** ValidationException: the code is always VALIDATION_ERROR, `errors` is kept
      as given, and the message is the single error's message when there is
      exactly one error, otherwise a count of the failed fields. */
  function ValidationException(errors: seq<FieldError>, details: Option<Details>): (e: Exception)
    ensures e.name == "ValidationException" && e.kind == ValidationKind(errors)
    ensures e.code == VALIDATION_ERROR && e.details == details
    ensures |errors| == 1 ==> e.message == errors[0].message
    ensures |errors| != 1 ==> e.message == "Validation failed for " + Text.NatToDecimal(|errors|) + " fields"
  {
    var message := if |errors| == 1 then errors[0].message
                   else "Validation failed for " + Text.NatToDecimal(|errors|) + " fields";
    Exception("ValidationException", ValidationKind(errors), message, VALIDATION_ERROR, details)
  }

  /** A validation exception for one field, whose message is that field's message. */
  function FromField(field: string, message: string, value: Option<string>): (e: Exception)
    ensures e.kind == ValidationKind([FieldError(field, message, value, None)])
    ensures e.message == message && e.code == VALIDATION_ERROR && e.details == None
  {
    ValidationException([FieldError(field, message, value, None)], None)
  }

  function FromFields(errors: seq<FieldError>): (e: Exception)
    ensures e.kind == ValidationKind(errors) && e.code == VALIDATION_ERROR && e.details == None
  {
    ValidationException(errors, None)
  }

  /** The serialized form of an exception; `errors` is present only for a
      ValidationException. */
  datatype ExceptionJson = ExceptionJson(name: string, message: string, code: string,
                                         details: Option<Details>, errors: Option<seq<FieldError>>)

  function ToJson(e: Exception): (j: ExceptionJson)
    ensures j.name == e.name && j.message == e.message && j.code == e.code && j.details == e.details
    ensures j.errors.Some? <==> e.kind.ValidationKind?
    ensures e.kind.ValidationKind? ==> j.errors.value == e.kind.errors
  {
    ExceptionJson(e.name, e.message, e.code, e.details,
                  if e.kind.ValidationKind? then Some(e.kind.errors) else None)
  }

  /** The framework's own `UnauthorizedException(message)`: HTTP status 401 and a
      response object with that message and the error "Unauthorized". */
  function HttpUnauthorized(message: string): (f: Failure)
    ensures f.Http? && f.status == 401 && f.message == message
    ensures f.response == ObjectBody(Some(message), Some("Unauthorized"))
  {
    Http(401, ObjectBody(Some(message), Some("Unauthorized")), message)
  }

  /** The storage driver's error message for a unique-index violation. The
      driver's message begins with this text and goes on to name the
      collection, the index and the duplicated key; the model keeps only this
      common prefix, which stands for the whole message. */
  const DuplicateKeyMessage: string := "E11000 duplicate key error"
}
