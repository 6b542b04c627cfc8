# Auth and user services of a NestJS DDD starter, modelled in Dafny

This project models the core of a two-service NestJS starter: an **auth
service** and a **user service** that the auth service calls over gRPC.

The auth service has four command handlers: register, login, refresh token
and logout. They drive a credential lifecycle over four things:

- the credential collection (`AuthEntity`, `AuthMapper`, `AuthRepositoryImpl`);
- the user service (`UserGrpcController`);
- a password hasher;
- a JWT issuer.

The user service side covers:

- the `UserEntity` lifecycle (name rule, email update, soft delete);
- `UserMapper` and the generic Mongo repository (`BaseMongoRepository`): `save` that inserts or updates, `findAll` paging, and the lookups;
- the `UserCreate` command and the `UserGetDetail` query.

Shared by both services:

- the value objects `EmailVO` and `PasswordVO`;
- the exception taxonomy, with the status mapping of `HttpExceptionFilter`;
- the response builders of `ResponseBuilder`.

## How the model is built

Each module follows one concern of the source:

| module | file | models |
|---|---|---|
| `Common` | common.dfy | optional values, results, JS truthiness, clock |
| `Text` | text.dfy | JS `trim`, `toLowerCase` on ASCII, `split` on one character, number formatting |
| `Exceptions` | exceptions.dfy | `ExceptionCode`, the base and concrete exceptions, `ValidationException` |
| `Responses` | responses.dfy | `ResponseBuilder`, `Math.ceil(a / b)` as a JavaScript number |
| `HttpFilter` | http_filter.dfy | `HttpExceptionFilter` |
| `Email`, `Password` | email.dfy, password.dfy | the two value objects, with their regular expressions written as character predicates |
| `AuthDomain` | auth_entity.dfy | `AuthEntity`, as a class, plus record functions that specify it |
| `AuthPersistence` | auth_store.dfy | `AuthMapper`, and `AuthRepositoryImpl` as a class over a map |
| `UserDomain` | user_entity.dfy | `UserEntity`, as a class, plus the functions that specify it |
| `UserPersistence` | user_store.dfy | `UserMapper`, and the Mongo base repository as a class over a map |
| `UserApplication` | user_service.dfy | the gRPC controller and the two user handlers, as classes |
| `Ports` | ports.dfy | the hasher and the JWT issuer, as datatypes of functions |
| `AuthHandlers` | auth_handlers.dfy | the four auth handlers, as classes |
| `AuthFlows` | auth_flows.dfy | the lemmas about the auth handlers, and corrected versions of two of them |

Each stateful class method is proved equal to a pure function of the
collections it reads and writes. Examples:

- `LoginCommandHandler.Execute` is proved equal to `LoginIn`.
- `AuthRepository.Save` is proved equal to `SaveIn`.

The properties the source promises are lemmas about those functions.

Several things the source does outside its own code are modelled as
explicit inputs:

- **Keys the database generates.** A new `ObjectId` is a parameter: `userKey` for a user, `credKey` for a credential, `newKey` in the repositories. An insert under a key already in use fails like a duplicate key.
- **The clock.** `new Date()` is a parameter `now`, in whole seconds.
- **The hasher and the issuer.** They are datatypes of functions. What they must satisfy is stated as the predicates `HashSound` and `IssuerSound`, and lemmas that need those facts take them as hypotheses.
- **The unique email index.** Both collections have one (`Auth.model.ts:7`, `User.model.ts:7`). A write that violates it is a `Crash` carrying the driver's duplicate-key message. It is not a domain exception.
- **The sort order of `findAll`.** The order the database's sort returns is a parameter `ordered`.

### Where the code works against its own intent

The model follows the code in each case. The evidence is in the source itself.

- **The credential key.** Register assigns `auth.id = createdUser.id` (`src/auth/application/handlers/Register.command.handler.ts:74`), and refresh looks the credential up by the token's `sub`, the user's id (`src/auth/application/handlers/RefreshToken.command.handler.ts:27`). So the credential is meant to share the user's id. But `AuthMapper.toPersistence` drops the id (`src/auth/infrastructure/mappers/Auth.mapper.ts:15-22`) and `AuthRepositoryImpl.save` always inserts (`src/auth/infrastructure/repositories/AuthImpl.repository.ts:32-37`), so the store picks the key. This is Finding 1.
- **What `save` does.** The generic repository updates an entity that has an id and inserts one that has none (`src/shared/persistence/mongo/BaseRepositoryImpl.persistence.ts:29-45`); the user repository uses it. The credential repository replaces it with a plain insert. Each repository is modelled with its own `save`.
- **How uniqueness violations surface.** The domain has an exception for an existing user, `UserAlreadyExistsException` (`src/shared/exceptions/CommonExceptions.ts:19`), a conflict with a 409 status. The unique indexes (`Auth.model.ts:7`, `User.model.ts:7`) raise a driver error instead, which is not a domain exception, and the filter turns it into a 500. Finding 3 shows a create request that reaches the index.

## Model

| member | source | states |
|---|---|---|
| Common.Truthy | src/shared/exceptions/CommonExceptions.ts:12-14 | JavaScript truthiness of an optional string: present and not empty, as `identifier ?` and `a \|\| b` test it |
| Common.OrDefault | src/shared/presentation/dto/Response.ts:48 | a JS default parameter replaces only `undefined`: a given argument is kept, a missing one becomes the default |
| Text.Lower | src/shared/domain/value-objects/Email.vo.ts:23 | `toLowerCase` on ASCII: same length, each character lower-cased on its own |
| Text.LowerIdempotent | src/shared/domain/value-objects/Email.vo.ts:23 | lower-casing twice is lower-casing once |
| Text.TrimStart | src/shared/domain/value-objects/Email.vo.ts:23 | the result is a suffix of the input, everything removed is whitespace, and the result does not start with whitespace |
| Text.TrimEnd | src/shared/domain/value-objects/Email.vo.ts:23 | the result is a prefix of the input, everything removed is whitespace, and the result does not end with whitespace |
| Text.Trim | src/shared/domain/value-objects/Email.vo.ts:23 | JS `trim`: the result is a slice of the input, everything removed on either side is whitespace, and the result neither starts nor ends with whitespace |
| Text.TrimOfTrimmed | src/user/domain/entities/User.entity.ts:49 | a string with no whitespace at either end is its own trim |
| Text.TrimIdempotent | src/user/domain/entities/User.entity.ts:49 | trimming twice is trimming once |
| Text.TrimStartLower | src/shared/domain/value-objects/Email.vo.ts:23 | trimming the start commutes with lower-casing |
| Text.TrimEndLower | src/shared/domain/value-objects/Email.vo.ts:23 | trimming the end commutes with lower-casing |
| Text.TrimLower | src/shared/domain/value-objects/Email.vo.ts:23 | `trim().toLowerCase()` equals `toLowerCase().trim()` |
| Text.TrimStartPadded | src/shared/domain/value-objects/Email.vo.ts:23 | leading whitespace padding does not change `trimStart` |
| Text.TrimEndPadded | src/shared/domain/value-objects/Email.vo.ts:23 | trailing whitespace padding does not change `trimEnd` |
| Text.TrimStartAppend | src/shared/domain/value-objects/Email.vo.ts:23 | `trimStart` of a string followed by whitespace is its `trimStart` followed by that whitespace, or empty if it was all whitespace |
| Text.TrimPadded | src/shared/domain/value-objects/Email.vo.ts:23 | whitespace added on both sides does not change `trim` |
| Text.IndexOf | src/shared/domain/value-objects/Email.vo.ts:58 | the first position of a character: it holds the character and no earlier position does |
| Text.Split | src/shared/domain/value-objects/Email.vo.ts:58-62 | JS `split` on one character: at least one piece, no piece contains the separator, and joining the pieces with it gives the input back |
| Text.SplitJoin | src/shared/domain/value-objects/Email.vo.ts:58-62 | splitting a join of separator-free pieces gives back those pieces, so `split` and `join` are inverse |
| Text.JoinExcludes | src/shared/domain/value-objects/Email.vo.ts:11 | joining pieces that lack a character, with a different separator, gives a string that lacks it |
| Text.NatToDecimal | src/shared/exceptions/ValidationException.ts:19 | a count written in decimal is a non-empty run of digits whose value (`DecimalValue`, read most significant digit first) is the count, with a leading `0` only for zero |
| Text.Utf16Length | src/user/domain/entities/User.entity.ts:42 | JavaScript's `length`: between one and two code units per character, and exactly one per character precisely when none lies outside the Basic Multilingual Plane |
| Exceptions.ExceptionCodeValuesAreKeys | src/shared/exceptions/DomainException.ts:3-20 | every `ExceptionCode` value is spelled exactly like its key |
| Exceptions.DomainException | src/shared/exceptions/DomainException.ts:25-36 | domain kind, the message as given, code `DOMAIN_ERROR` unless one is given, details stored unchanged |
| Exceptions.NotFoundException | src/shared/exceptions/DomainException.ts:38-49 | not-found kind, message "Resource not found" and code `ENTITY_NOT_FOUND` unless given, details unchanged |
| Exceptions.ConflictException | src/shared/exceptions/DomainException.ts:51-62 | conflict kind, message "Resource already exists" and code `ENTITY_ALREADY_EXISTS` unless given |
| Exceptions.UnauthorizedException | src/shared/exceptions/DomainException.ts:64-75 | unauthorized kind, message "Unauthorized" and code `UNAUTHORIZED` unless given |
| Exceptions.BadRequestException | src/shared/exceptions/DomainException.ts:77-88 | bad-request kind, message "Bad request" and code `VALIDATION_ERROR` unless given |
| Exceptions.UserNotFoundException | src/shared/exceptions/CommonExceptions.ts:9-17 | not-found kind, code `USER_NOT_FOUND`; the message names the identifier and details `{identifier}` exist exactly when the identifier is truthy, otherwise "User not found" |
| Exceptions.UserAlreadyExistsException | src/shared/exceptions/CommonExceptions.ts:19-30 | conflict kind, code `USER_ALREADY_EXISTS` by default; message and details `{email}` embed the email exactly when it is truthy |
| Exceptions.InvalidEmailException | src/shared/exceptions/CommonExceptions.ts:32-40 | bad-request kind, code `INVALID_EMAIL` by default; message and details `{email}` embed the email exactly when it is truthy |
| Exceptions.InvalidPasswordException | src/shared/exceptions/CommonExceptions.ts:42-49 | bad-request kind, code `INVALID_PASSWORD` and the password-rules message by default, no details |
| Exceptions.InvalidCredentialsException | src/shared/exceptions/CommonExceptions.ts:51-55 | unauthorized kind, always the message "Invalid email or password", code `INVALID_CREDENTIALS` by default |
| Exceptions.TokenExpiredException | src/shared/exceptions/CommonExceptions.ts:57-61 | unauthorized kind, message "Token has expired", code `TOKEN_EXPIRED` by default |
| Exceptions.InvalidNameException | src/shared/exceptions/CommonExceptions.ts:63-71 | bad-request kind, code `INVALID_NAME`, fixed message; details `{name}` exist exactly when the name is truthy |
| Exceptions.ValidationException | src/shared/exceptions/ValidationException.ts:11-23 | code always `VALIDATION_ERROR`, errors kept as given; the message is the single error's message when there is exactly one, otherwise "Validation failed for N fields" |
| Exceptions.FromField | src/shared/exceptions/ValidationException.ts:25-31 | exactly one error `{field, message, value}`, so the exception's message is that message |
| Exceptions.FromFields | src/shared/exceptions/ValidationException.ts:33-35 | the errors as given, code `VALIDATION_ERROR`, no details |
| Exceptions.ToJson | src/shared/exceptions/ValidationException.ts:37-42 | the base fields of the exception, plus `errors` exactly for a validation exception |
| Exceptions.HttpUnauthorized | src/auth/application/handlers/RefreshToken.command.handler.ts:43 | the framework's `UnauthorizedException(message)`: status 401, response `{message, error: "Unauthorized"}` |
| Responses.LessThan | src/shared/presentation/dto/Response.ts:42 | `page < totalPages` as JavaScript compares a number with `Infinity` or `NaN`: true against `Infinity`, false against `-Infinity` and `NaN` |
| Responses.CeilDiv | src/shared/presentation/dto/Response.ts:34 | the ceiling of a ÷ b: for b > 0, (r − 1)·b < a ≤ r·b; symmetrically for b < 0 |
| Responses.CeilDivide | src/shared/presentation/dto/Response.ts:34 | `Math.ceil(a / b)`: the ceiling for b ≠ 0, and for b = 0 an infinity of the sign of a, or NaN when a = 0 |
| Responses.Paginated | src/shared/presentation/dto/Response.ts:28-46 | data, page, limit and total pass through; for limit > 0 the page count is the least that holds every item; hasNextPage iff page < page count, hasPrevPage iff page > 1 |
| Responses.PaginatedEmpty | src/shared/presentation/dto/Response.ts:34-43 | with no items there is never a next page; there are 0 pages for a positive limit and NaN for limit 0 |
| Responses.Success | src/shared/presentation/dto/Response.ts:48-56 | success true, the data and message, status 200 unless given, no error fields |
| Responses.Error | src/shared/presentation/dto/Response.ts:58-73 | success false, never the data argument, status 500 unless given, the message, error and path |
| HttpFilter.CodeTableCoversCodes | libs/HttpExceptionFilter.ts:32-53 | `CODE_TO_HTTP_STATUS` maps every exception code except `DOMAIN_ERROR`, and only exception codes, each to 400, 401, 404 or 409 |
| HttpFilter.StatusName | libs/HttpExceptionFilter.ts:123-136 | `HttpStatus[status]`: the enumeration's name for a listed status, otherwise undefined |
| HttpFilter.GetHttpStatus | libs/HttpExceptionFilter.ts:146-172 | class first (not found 404, conflict 409, unauthorized 401, bad request and validation 400); only a plain domain exception is mapped by its code through the table, and an unmapped code gives 422 |
| HttpFilter.ClassAndCodeAgree | libs/HttpExceptionFilter.ts:32-53 | for each concrete exception in its default form, the status its class gives equals the status the code table gives for its code |
| HttpFilter.ClassTakesPrecedence | libs/HttpExceptionFilter.ts:146-171 | an unauthorized exception with a not-found code is 401; a domain exception with `USER_ALREADY_EXISTS` is 409; one with `DOMAIN_ERROR` is 422 |
| HttpFilter.Catch | libs/HttpExceptionFilter.ts:61-144 | the body of each branch: for an exception of ours, its status, message, class name, code and details, with `errors` only for validation; for a framework exception, its status with success iff status < 400 and the message and error from its response object when present; for any other error, 500 with "Internal server error" for an empty message |
| HttpFilter.RefreshFailureIs401 | src/auth/application/handlers/RefreshToken.command.handler.ts:42-44 | every refresh failure reaches the client as 401 "Invalid refresh token", error "Unauthorized" |
| Email.MatchesPattern | src/shared/domain/value-objects/Email.vo.ts:10-11 | `EMAIL_REGEX.test`: one `@`, a non-empty local part of allowed characters before it, and dot-separated labels after it, each 1 to 63 letters, digits or hyphens that start and end with a letter or digit |
| Email.Normalize | src/shared/domain/value-objects/Email.vo.ts:23 | `email.trim().toLowerCase()` |
| Email.GrammarMatches | src/shared/domain/value-objects/Email.vo.ts:10-11 | a local part, `@` and one or more dot-joined labels match the address pattern |
| Email.MatchDecomposes | src/shared/domain/value-objects/Email.vo.ts:10-11 | a matching address is its local part, `@`, and its domain's labels joined by dots |
| Email.Create | src/shared/domain/value-objects/Email.vo.ts:22-42 | succeeds exactly when the input is present and its trimmed, lower-cased form is 5 to 254 characters and matches the pattern; the value is that normalized form; every failure is `InvalidEmailException(email)` |
| Email.CreateLengthInCodeUnits | src/shared/domain/value-objects/Email.vo.ts:29-39 | with the length bounds counted in UTF-16 code units, as `length` counts them, `create` accepts exactly the same inputs |
| Email.MatchIsInBmp | src/shared/domain/value-objects/Email.vo.ts:10-11 | a matching address has no character outside the Basic Multilingual Plane |
| Email.MatchExcludes | src/shared/domain/value-objects/Email.vo.ts:10-11 | a matching address holds no character outside the pattern's alphabet |
| Email.CreateValid | src/shared/domain/value-objects/Email.vo.ts:22-42 | every created value is normalized, within the length bounds and matches the pattern |
| Email.IsValid | src/shared/domain/value-objects/Email.vo.ts:44-51 | true exactly when `create` succeeds |
| Email.NormalizeIdempotent | src/shared/domain/value-objects/Email.vo.ts:23 | normalizing a normalized address changes nothing |
| Email.CreateIdempotent | src/shared/domain/value-objects/Email.vo.ts:22-42 | creating from a created value gives the same value |
| Email.CreateIgnoresPaddingAndCase | src/shared/domain/value-objects/Email.vo.spec.ts:17-24 | surrounding whitespace and letter case change neither whether `create` succeeds nor the value it produces |
| Email.LocalPart | src/shared/domain/value-objects/Email.vo.ts:57-59 | the text before the first `@`, or all of it when there is none |
| Email.Domain | src/shared/domain/value-objects/Email.vo.ts:61-63 | `split('@')[1]`: undefined exactly when the address has no `@` (for a valid address `PartsOfValid` states what it holds) |
| Email.PartsOfValid | src/shared/domain/value-objects/Email.vo.spec.ts:101-109 | a valid address is local part, `@`, domain; the local part is made of allowed characters and every domain label is well formed |
| Email.LocalPartOfValid | src/auth/application/handlers/Register.command.handler.ts:66 | the local part of a matching address is allowed characters only and has no whitespace to trim |
| Email.RejectsWithoutAt | src/shared/domain/value-objects/Email.vo.spec.ts:46-50 | an input without `@` is refused |
| Email.RejectsEmptyLocalPart | src/shared/domain/value-objects/Email.vo.spec.ts:56-60 | an input whose normalized form starts with `@` is refused |
| Email.MatchHasNoWhitespace | src/shared/domain/value-objects/Email.vo.ts:10-11 | a matching address contains no whitespace character |
| Email.RejectsInnerWhitespace | src/shared/domain/value-objects/Email.vo.spec.ts:62-69 | whitespace that trimming keeps (inside the address) makes `create` fail |
| Password.IsValidPassword | src/auth/domain/valueobjects/Password.vo.ts:13-17 | `isValidPassword`: the regular expression as predicates, with a lower-case letter, an upper-case letter and a digit somewhere, and at least 8 characters, all from `[a-zA-Z0-9@$!%*?&]` |
| Password.AsTested | src/auth/domain/valueobjects/Password.vo.ts:13-17 | the string the regular expression tests: the password itself, or "undefined" when it is missing |
| Password.Create | src/auth/domain/valueobjects/Password.vo.ts:6-17 | accepted exactly when the password is at least 8 characters from `[a-zA-Z0-9@$!%*?&]` with a lower-case letter, an upper-case letter and a digit; the value is the input unchanged; a refusal is `InvalidPasswordException()` |
| Password.UndefinedRejected | src/auth/domain/valueobjects/Password.vo.ts:13-17 | a missing password is refused |
| Password.ValidHasNoWhitespace | src/auth/domain/valueobjects/Password.vo.ts:15 | a valid password has no whitespace, so trimming it would change nothing |
| Password.Examples | src/auth/domain/valueobjects/Password.vo.ts:15 | "Abcd1234" is accepted; a password with no upper-case letter, one too short, one with a space, and a missing one are all refused |
| Ports.Lifetime | src/auth/application/handlers/Register.command.handler.ts:79-80 | a `7d` expiry lasts 7 × 86400 seconds; a token signed without one lasts the configured access lifetime |
| Ports.RefreshTokenLasts | src/auth/application/handlers/Register.command.handler.ts:80 | for a sound issuer, a refresh token verifies to its claims for the seven days after signing |
| AuthDomain.NewRecord | src/auth/domain/entities/Auth.entity.ts:9-16 | email and password exactly as given, with no id, no refresh token and no last login |
| AuthDomain.WithRefreshToken | src/auth/domain/entities/Auth.entity.ts:18-20 | sets the refresh token (null included) and nothing else |
| AuthDomain.WithLastLogin | src/auth/domain/entities/Auth.entity.ts:22-24 | sets the last login to the current time and nothing else |
| AuthDomain.LoggedOut | src/auth/domain/entities/Auth.entity.ts:26-28 | clears the refresh token and nothing else |
| AuthDomain.LogoutClearsToken | src/auth/domain/entities/Auth.entity.ts:18-28 | `logout()` has the effect of `updateRefreshToken(null)` |
| AuthDomain.LogoutIdempotent | src/auth/domain/entities/Auth.entity.ts:26-28 | logging out twice is logging out once |
| AuthDomain.LastTokenWins | src/auth/domain/entities/Auth.entity.ts:18-20 | of two token updates only the last one shows |
| AuthDomain.TokenAndLoginCommute | src/auth/domain/entities/Auth.entity.ts:18-24 | updating the token and the last login in either order gives the same entity |
| AuthDomain.AuthEntity.Create | src/auth/domain/entities/Auth.entity.ts:9-16 | the new entity's fields are those of `NewRecord` |
| AuthDomain.AuthEntity.FromRecord | src/auth/infrastructure/mappers/Auth.mapper.ts:5-13 | the entity holds exactly the given fields |
| AuthDomain.AuthEntity.AssignId | src/auth/application/handlers/Register.command.handler.ts:74 | only the id changes, to the one given |
| AuthDomain.AuthEntity.UpdateRefreshToken | src/auth/domain/entities/Auth.entity.ts:18-20 | the new fields are `WithRefreshToken` of the old ones |
| AuthDomain.AuthEntity.UpdateLastLogin | src/auth/domain/entities/Auth.entity.ts:22-24 | the new fields are `WithLastLogin` of the old ones |
| AuthDomain.AuthEntity.Logout | src/auth/domain/entities/Auth.entity.ts:26-28 | the new fields are `LoggedOut` of the old ones |
| AuthPersistence.ToPersistence | src/auth/infrastructure/mappers/Auth.mapper.ts:15-22 | the document holds exactly email, password, refresh token and last login; the id is dropped |
| AuthPersistence.ToDomain | src/auth/infrastructure/mappers/Auth.mapper.ts:5-13 | the id is the document's key and the four fields are copied unchanged |
| AuthPersistence.MapperRoundTrip | src/auth/infrastructure/mappers/Auth.mapper.ts:5-22 | persisting under key k and mapping back gives the same entity with id k, whatever id it had |
| AuthPersistence.DocRoundTrip | src/auth/infrastructure/mappers/Auth.mapper.ts:5-22 | mapping a document to the domain and back gives the document |
| AuthPersistence.KeyOfEmail | src/auth/infrastructure/repositories/AuthImpl.repository.ts:17 | a key holding the email, present exactly when some document has that email |
| AuthPersistence.FindByEmailIn | src/auth/infrastructure/repositories/AuthImpl.repository.ts:16-22 | an exact-match lookup: found exactly when a document holds that email, and then it is that document mapped under its key |
| AuthPersistence.FindByIdIn | src/auth/infrastructure/repositories/AuthImpl.repository.ts:24-30 | found exactly when the key is present, and then it is that document mapped |
| AuthPersistence.SaveIn | src/auth/infrastructure/repositories/AuthImpl.repository.ts:32-37 | always an insert under the store's new key, whatever the entity's id: succeeds exactly when the key is free and no document has the email; a violation is a duplicate-key crash that stores nothing |
| AuthPersistence.UpdateRefreshTokenIn | src/auth/infrastructure/repositories/AuthImpl.repository.ts:39-44 | only that document's refresh token changes; an absent key is a silent no-op |
| AuthPersistence.SavePreservesUnique | src/auth/infrastructure/repositories/AuthImpl.repository.ts:32-37 | saving keeps emails unique across the collection |
| AuthPersistence.UpdatePreservesUnique | src/auth/infrastructure/repositories/AuthImpl.repository.ts:39-44 | a token update keeps emails unique |
| AuthPersistence.UpdateTwice | src/auth/infrastructure/repositories/AuthImpl.repository.ts:39-44 | two token updates of one key equal the last one |
| AuthPersistence.AuthRepository.FindByEmail | src/auth/infrastructure/repositories/AuthImpl.repository.ts:16-22 | returns a fresh entity holding `FindByEmailIn` of the collection, or null |
| AuthPersistence.AuthRepository.FindById | src/auth/infrastructure/repositories/AuthImpl.repository.ts:24-30 | returns a fresh entity holding `FindByIdIn` of the collection, or null |
| AuthPersistence.AuthRepository.Save | src/auth/infrastructure/repositories/AuthImpl.repository.ts:32-37 | result and new collection are `SaveIn` of the old one; unique emails are kept |
| AuthPersistence.AuthRepository.UpdateRefreshToken | src/auth/infrastructure/repositories/AuthImpl.repository.ts:39-44 | the new collection is `UpdateRefreshTokenIn` of the old one |
| UserDomain.CreateProps | src/user/domain/entities/User.entity.ts:39-54 | a missing name, or one shorter than 2 UTF-16 code units once trimmed, is `InvalidNameException(name)` before the email is looked at; then an invalid email is its error; otherwise the trimmed name, the normalized email, both dates `now`, not deleted |
| UserDomain.CreateWellFormed | src/user/domain/entities/User.entity.ts:39-54 | every created user has a valid normalized email and a trimmed name of at least 2 code units |
| UserDomain.AstralNameAccepted | src/user/domain/entities/User.entity.ts:42-44 | a name of one character outside the Basic Multilingual Plane (two code units) passes the name rule |
| UserDomain.OneLetterNameRefused | src/user/domain/entities/User.entity.ts:42-44 | a one-letter name fails with `InvalidNameException` carrying that name |
| UserDomain.DeletedGuard | src/user/domain/entities/User.entity.ts:87-95 | raises exactly for a deleted user: a domain exception "Cannot modify deleted user" with code `ENTITY_NOT_FOUND` |
| UserDomain.UpdateEmailProps | src/user/domain/entities/User.entity.ts:67-78 | a deleted user or an invalid email is refused and changes nothing; the same normalized email changes nothing; a different one sets the email and `updatedAt` |
| UserDomain.DeleteProps | src/user/domain/entities/User.entity.ts:80-85 | a deleted user is refused and unchanged; otherwise `deletedAt` and `updatedAt` become `now` |
| UserDomain.UpdateEmailKeepsWellFormed | src/user/domain/entities/User.entity.ts:67-78 | an email update keeps a well-formed user well formed |
| UserDomain.UpdateEmailSameIsNoop | src/user/domain/entities/User.entity.ts:72-74 | updating to the email the user already has changes nothing, `updatedAt` included |
| UserDomain.DeleteTwiceFails | src/user/domain/entities/User.entity.ts:80-95 | after one delete, a second is refused with `ENTITY_NOT_FOUND` and keeps the first delete's date |
| UserDomain.DeletedEmailFrozen | src/user/domain/entities/User.entity.ts:67-68 | a deleted user's email can no longer be changed |
| UserDomain.UserEntity.FromPersistence | src/user/domain/entities/User.entity.ts:56-65 | the entity's six fields are those given |
| UserDomain.UserEntity.ToPersistence | src/user/domain/entities/User.entity.ts:97-106 | `toPersistence()`: the entity's six fields as a record; the entity methods' contracts are stated through it |
| UserDomain.UserEntity.IsDeleted | src/user/domain/entities/User.entity.ts:32-34 | `get isDeleted()`: true exactly when `deletedAt` is set |
| UserDomain.UserEntity.Create | src/user/domain/entities/User.entity.ts:39-54 | a fresh entity holding `CreateProps`, or its error |
| UserDomain.UserEntity.EnsureNotDeleted | src/user/domain/entities/User.entity.ts:87-95 | fails exactly when the user is deleted, with the `DeletedGuard` exception |
| UserDomain.UserEntity.UpdateEmail | src/user/domain/entities/User.entity.ts:67-78 | result and new fields are `UpdateEmailProps` of the old fields |
| UserDomain.UserEntity.Delete | src/user/domain/entities/User.entity.ts:80-85 | result and new fields are `DeleteProps` of the old fields |
| UserPersistence.ToDomain | src/user/infrastructure/mappers/User.mapper.ts:8-20 | the id is `_id` when truthy, else the raw `id`; email and name are copied without checks; missing dates become `now`; `deletedAt` is kept |
| UserPersistence.ToPersistence | src/user/infrastructure/mappers/User.mapper.ts:22-24 | the entity's six fields, with no `_id` |
| UserPersistence.MapperRoundTrip | src/user/infrastructure/mappers/User.mapper.ts:8-24 | mapping an entity to persistence and back preserves all six fields |
| UserPersistence.DocOf | src/user/domain/entities/User.entity.ts:97-106 | the stored document holds email, name, dates and `deletedAt`; the key holds the id |
| UserPersistence.Read | src/user/infrastructure/mappers/User.mapper.ts:8-20 | a document read under its key has that key as id and the stored fields |
| UserPersistence.StoreRoundTrip | src/user/infrastructure/mappers/User.mapper.ts:8-24 | storing an entity under key k and reading it back gives the entity with id k |
| UserPersistence.FindByIdIn | src/shared/persistence/mongo/BaseRepositoryImpl.persistence.ts:24-27 | found exactly when the key is present, and then it is that document read |
| UserPersistence.FindByEmailIn | src/user/infrastructure/repositories/UserImpl.repository.ts:22-24 | an exact-match lookup through `findOneByCondition`: found exactly when a document holds the email |
| UserPersistence.SaveIn | src/shared/persistence/mongo/BaseRepositoryImpl.persistence.ts:29-45 | with a truthy id: an absent document crashes the mapper on null, an email held elsewhere is a duplicate-key crash, otherwise the document is replaced; without: an insert under the new key unless the key or email is taken; a failure stores nothing, and the email stays unique |
| UserPersistence.PageOf | src/shared/persistence/mongo/BaseRepositoryImpl.persistence.ts:61 | `page \|\| 1`: an absent or 0 page is 1 |
| UserPersistence.LimitOf | src/shared/persistence/mongo/BaseRepositoryImpl.persistence.ts:62 | `limit \|\| 10`: an absent or 0 limit is 10 |
| UserPersistence.SortOf | src/shared/persistence/mongo/BaseRepositoryImpl.persistence.ts:65-68 | a sort exists exactly for a truthy `sortBy`, and it is descending exactly when `sortOrder` is "desc" |
| UserPersistence.FindAllIn | src/shared/persistence/mongo/BaseRepositoryImpl.persistence.ts:58-88 | a negative skip (page − 1)·limit is refused by the database; otherwise up to \|limit\| documents from position skip of the sorted listing, read in order, with the total count, the defaulted page and limit, and `Math.ceil(total / limit)` pages |
| UserPersistence.FindAllDefaults | src/shared/persistence/mongo/BaseRepositoryImpl.persistence.ts:61-63 | without options: page 1, limit 10, and the first min(total, 10) documents |
| UserPersistence.FindAllPages | src/shared/persistence/mongo/BaseRepositoryImpl.persistence.ts:63-86 | for positive page and limit: there are ⌈total ÷ limit⌉ pages, page p starts inside the listing exactly when p is at most that, and pages past it are empty |
| UserPersistence.UserRepository.FindById | src/shared/persistence/mongo/BaseRepositoryImpl.persistence.ts:24-27 | returns a fresh entity holding `FindByIdIn`, or null |
| UserPersistence.UserRepository.FindByEmail | src/user/infrastructure/repositories/UserImpl.repository.ts:22-24 | returns a fresh entity holding `FindByEmailIn`, or null |
| UserPersistence.UserRepository.ExistsByEmail | src/user/infrastructure/repositories/UserImpl.repository.ts:26-29 | true exactly when some document holds that exact email |
| UserPersistence.UserRepository.Exists | src/shared/persistence/mongo/BaseRepositoryImpl.persistence.ts:51-56 | true exactly when a document has that key |
| UserPersistence.UserRepository.Count | src/shared/persistence/mongo/BaseRepositoryImpl.persistence.ts:90-92 | the number of documents |
| UserPersistence.UserRepository.Delete | src/shared/persistence/mongo/BaseRepositoryImpl.persistence.ts:47-49 | removes the key; an absent key changes nothing |
| UserPersistence.UserRepository.Save | src/shared/persistence/mongo/BaseRepositoryImpl.persistence.ts:29-45 | result and new collection are `SaveIn` of the old one |
| UserPersistence.UserRepository.FindAll | src/shared/persistence/mongo/BaseRepositoryImpl.persistence.ts:58-88 | the result is `FindAllIn` of the collection |
| UserPersistence.UserRepository.DeleteManyByCondition | src/shared/persistence/mongo/BaseRepositoryImpl.persistence.ts:125-130 | removes exactly the documents the filter selects and returns how many, so count and remaining size add up to the old size |
| UserApplication.GetUserByEmailIn | src/user/presentation/grpc/UserGrpc.controller.ts:22-38 | `found` exactly when a user holds the email verbatim, then with its key, name and email; a null reply is assumed to reach the caller as not found with empty fields (see "## Left out") |
| UserApplication.CreateUserIn | src/user/presentation/grpc/UserGrpc.controller.ts:40-54 | `create` then `save`; a failure leaves the users unchanged and emails stay unique |
| UserApplication.CreateUserOutcome | src/user/presentation/grpc/UserGrpc.controller.ts:40-54 | succeeds exactly when the entity is valid, the new key is free and no user holds the normalized email; returns that key, the normalized email and the trimmed name, and adds exactly that document; a validation error propagates; with no duplicate check of its own, a taken email is a duplicate-key crash |
| UserApplication.CreateKeepsUsers | src/user/presentation/grpc/UserGrpc.controller.ts:40-54 | `createUser` keeps every user already stored |
| UserApplication.CreateThenLookup | src/user/presentation/grpc/UserGrpc.controller.ts:22-54 | a user just created is found by its email with the created id, name and email |
| UserApplication.EmailExistsException | src/user/application/handlers/UserCreate.command.handler.ts:26-30 | a domain exception "Email already exists", code `USER_ALREADY_EXISTS`, details `{email}` |
| UserApplication.UserCreateIn | src/user/application/handlers/UserCreate.command.handler.ts:21-38 | a user already holding the raw payload email is refused with the domain exception and changes nothing; a failure changes nothing, and emails stay unique |
| UserApplication.UserCreateSucceeds | src/user/application/handlers/UserCreate.command.handler.ts:21-38 | the handler succeeds exactly when the raw email is unknown, the entity is valid, the new key is free and the normalized email is unknown; then it returns the saved entity with the new key as id and adds exactly that one user; an invalid entity fails with its own exception and changes nothing |
| UserApplication.UserCreateCaseVariantCrashes | src/user/application/handlers/UserCreate.command.handler.ts:24-35 | an email differing from a stored one only by case or padding passes the check and ends in a duplicate-key crash |
| UserApplication.UserCreateCheckedIn | src/user/application/handlers/UserCreate.command.handler.ts:21-38 | the corrected handler, which checks the normalized email; a failure changes nothing |
| UserApplication.UserCreateCheckedReportsDuplicates | src/user/application/handlers/UserCreate.command.handler.ts:24-31 | with the corrected check, an existing user is always the domain exception and never a crash; creation succeeds exactly when the entity is valid and its email is free |
| UserApplication.GetDetailIn | src/user/application/handlers/UserGetDetail.query.handler.ts:19-28 | fails exactly when no user has the id, with `UserNotFoundException()` ("User not found"); otherwise a 200 success envelope holding the stored user with that id |
| UserApplication.UserGrpcController.GetUserByEmail | src/user/presentation/grpc/UserGrpc.controller.ts:22-38 | the reply is `GetUserByEmailIn` of the users |
| UserApplication.UserGrpcController.CreateUser | src/user/presentation/grpc/UserGrpc.controller.ts:40-54 | reply and new users are `CreateUserIn` of the old users |
| UserApplication.UserCreateCommandHandler.Execute | src/user/application/handlers/UserCreate.command.handler.ts:21-38 | result and new users are `UserCreateIn` of the old users |
| UserApplication.UserGetDetailHandler.Execute | src/user/application/handlers/UserGetDetail.query.handler.ts:19-28 | the result is `GetDetailIn` of the users |
| AuthHandlers.DisplayName | src/auth/application/handlers/Register.command.handler.ts:66 | `command.name` when truthy, otherwise the email's local part |
| AuthHandlers.SessionClaims | src/auth/application/handlers/Register.command.handler.ts:78 | the payload `{sub: user id, email: user email}` |
| AuthHandlers.RegisterIn | src/auth/application/handlers/Register.command.handler.ts:45-95 | register step by step: the stores stay well formed (unique emails, keyed users), and a success carries a payload |
| AuthHandlers.RegisterValidatedIn | src/auth/application/handlers/Register.command.handler.ts:51-95 | register after validation: the stores stay well formed and a success carries a payload |
| AuthHandlers.IssueIn | src/auth/application/handlers/Register.command.handler.ts:70-94 | a failed insert is a duplicate-key crash that stores nothing; a success returns the created user; emails stay unique |
| AuthHandlers.LoginIn | src/auth/application/handlers/Login.command.handler.ts:43-87 | login never changes the users; a failure changes no credential; emails stay unique |
| AuthHandlers.RefreshIn | src/auth/application/handlers/RefreshToken.command.handler.ts:23-45 | accepted exactly when the token verifies and the credential under its subject holds that very token; then a new pair signed from the stored key and email, and the stored token becomes the returned one; every failure is the same 401 and changes nothing |
| AuthHandlers.LogoutIn | src/auth/application/handlers/Logout.command.handler.ts:17-25 | fails exactly for an unknown id, with `UserNotFoundException()` and no change; otherwise only that credential's refresh token is cleared |
| AuthHandlers.RegisterCommandHandler.Execute | src/auth/application/handlers/Register.command.handler.ts:45-95 | result and both collections are `RegisterIn` of the old ones |
| AuthHandlers.RegisterCommandHandler.RegisterValidated | src/auth/application/handlers/Register.command.handler.ts:51-95 | result and both collections are `RegisterValidatedIn` of the old ones |
| AuthHandlers.RegisterCommandHandler.StoreCredential | src/auth/application/handlers/Register.command.handler.ts:70-94 | result and credentials are `IssueIn` of the old credentials |
| AuthHandlers.LoginCommandHandler.Execute | src/auth/application/handlers/Login.command.handler.ts:43-87 | result and credentials are `LoginIn` of the old ones; the users are not written |
| AuthHandlers.RefreshTokenCommandHandler.Execute | src/auth/application/handlers/RefreshToken.command.handler.ts:23-45 | result and credentials are `RefreshIn` of the old ones |
| AuthHandlers.LogoutCommandHandler.Execute | src/auth/application/handlers/Logout.command.handler.ts:17-25 | result and credentials are `LogoutIn` of the old ones |
| AuthFlows.RegisterRejectsInvalidInput | src/auth/application/handlers/Register.command.handler.ts:48-49 | an invalid email fails with its `InvalidEmailException` and an invalid password with `InvalidPasswordException`, before either store is touched |
| AuthFlows.RegisterRejectsKnownEmail | src/auth/application/handlers/Register.command.handler.ts:51-57 | an email the user service knows fails with `UserAlreadyExistsException(email)` (a conflict), and neither store changes |
| AuthFlows.IssueSucceeds | src/auth/application/handlers/Register.command.handler.ts:70-94 | the credential step succeeds exactly when its key is free and the email is not stored; it stores the email, the hash and the returned refresh token, with no last login, and replies 200 with both tokens and the user |
| AuthFlows.RegisterValidatedSucceeds | src/auth/application/handlers/Register.command.handler.ts:51-94 | register succeeds exactly when the email is unknown to the user service, the trimmed name has at least 2 code units, and both new keys are free and the email is not among the credentials; on success, both tokens are signed from `{sub: user id, email}`, the refresh token with a 7-day expiry, and the new user and credential are exactly those documents |
| AuthFlows.RegisteredState | src/auth/application/handlers/Register.command.handler.ts:63-94 | after a successful register, the returned user is `(userKey, email, trimmed name)`, and the stored refresh token is the returned one |
| AuthFlows.ValidatedShortName | src/user/domain/entities/User.entity.ts:42-44 | an empty or too-short name fails with `InvalidNameException` and stores nothing |
| AuthFlows.RegisterValidates | src/auth/application/handlers/Register.command.handler.ts:48-68 | with valid input, register proceeds with the normalized email, the password and `name \|\| local part` |
| AuthFlows.RegisterDefaultName | src/auth/application/handlers/Register.command.handler.ts:66 | with no name, the user is named after the local part, so a local part of one character (one code unit) fails with `InvalidNameException` and stores nothing |
| AuthFlows.DefaultNameIsLocalPart | src/auth/application/handlers/Register.command.handler.ts:66 | without a truthy name the display name is the local part, which has nothing to trim |
| AuthFlows.RegisterLeavesOrphanUser | src/auth/application/handlers/Register.command.handler.ts:63-76 | when the credential insert fails after the user was created, the user stays created, and a later register of that email fails with `UserAlreadyExists` |
| AuthFlows.LoginRejectsInvalidEmail | src/auth/application/handlers/Login.command.handler.ts:44 | an email the value object refuses fails with `InvalidEmailException(email)`, not `InvalidCredentials`, before any credential is read, and changes nothing |
| AuthFlows.LoginSucceeds | src/auth/application/handlers/Login.command.handler.ts:43-87 | login succeeds exactly when a credential holds the normalized email, the password matches its hash and the user service knows the email; every failure is the same `InvalidCredentialsException()` and changes nothing; on success the tokens carry `{sub: user id, email}` and only that credential's refresh token changes, to the returned one |
| AuthFlows.LoginKnown | src/auth/application/handlers/Login.command.handler.ts:46-86 | a stored credential with a matching password and a known user log in, replying with that user |
| AuthFlows.ValidatedThenLogin | src/auth/application/handlers/Login.command.handler.ts:43-87 | with a sound hasher, a registered user can log in with the same password and gets the same user back |
| AuthFlows.RegisterThenLogin | src/auth/application/handlers/Login.command.handler.ts:43-87 | the same from the raw register input |
| AuthFlows.RefreshRotates | src/auth/application/handlers/RefreshToken.command.handler.ts:28-36 | after a refresh that issued a different token, presenting the old one again is refused and changes nothing |
| AuthFlows.RefreshChains | src/auth/application/handlers/RefreshToken.command.handler.ts:32-36 | with a sound issuer, the refresh token a refresh returns is itself accepted within seven days |
| AuthFlows.LogoutRevokes | src/auth/application/handlers/Logout.command.handler.ts:23-24 | after logout, every token whose subject is that id is refused |
| AuthFlows.LogoutIdempotent | src/auth/application/handlers/Logout.command.handler.ts:17-25 | a second logout of the same id succeeds again and leaves the same state |
| AuthFlows.ValidatedThenRefreshRejected | src/auth/application/handlers/Register.command.handler.ts:74-83 | as written, when the store's credential key is not the user's id, the refresh token register returns is refused and logout by the user's id fails |
| AuthFlows.RegisterThenRefreshRejected | src/auth/application/handlers/RefreshToken.command.handler.ts:25-30 | the same from the raw register input |
| AuthFlows.RegisterBreaksLink | src/auth/infrastructure/mappers/Auth.mapper.ts:15-22 | as written, register leaves a credential whose key is no user's key |
| AuthFlows.RegisterLinkedIn | src/auth/application/handlers/Register.command.handler.ts:45-95 | the corrected register, storing the credential under the user's id; the stores stay well formed |
| AuthFlows.ValidatedLinkedKeepsLink | src/auth/application/handlers/Register.command.handler.ts:70-83 | a register whose credential key is the user's id keeps every credential keyed by a user with the same email |
| AuthFlows.ValidatedFailureKeeps | src/auth/application/handlers/Register.command.handler.ts:51-76 | a failed register changes no credential and removes or alters no user |
| AuthFlows.RegisterLinkedKeepsLink | src/auth/application/handlers/Register.command.handler.ts:70-83 | the corrected register keeps every credential keyed by a user with the same email |
| AuthFlows.ValidatedLinkedThenRefresh | src/auth/application/handlers/RefreshToken.command.handler.ts:23-36 | with the credential under the user's id, the returned refresh token is accepted within seven days and logout by the user's id succeeds |
| AuthFlows.RegisterLinkedThenRefresh | src/auth/application/handlers/RefreshToken.command.handler.ts:23-36 | the same for the corrected register from raw input |
| AuthFlows.LoginThenRefresh | src/auth/application/handlers/Login.command.handler.ts:68-75 | when credentials are keyed by user id, a login's refresh token is accepted within seven days |
| AuthFlows.LoginThenRefreshRejected | src/auth/application/handlers/Login.command.handler.ts:68-75 | as written, when no credential is stored under the id of the user login replies with, the refresh token login returns is refused with the 401 and nothing changes |
| AuthFlows.LoginLeavesLastLoginStale | src/auth/application/handlers/Login.command.handler.ts:73-75 | as written, the stored last login is unchanged by a login, so the stored credential differs from the updated entity |
| AuthFlows.LoginRecordingIn | src/auth/application/handlers/Login.command.handler.ts:43-87 | the corrected login: the same reply as login, the users unchanged, and a failure changes nothing |
| AuthFlows.LoginRecordingStoresEntity | src/auth/application/handlers/Login.command.handler.ts:73-75 | the corrected login stores exactly the updated entity, so the stored last login is the login time |
| AuthFlows.LoginStoresToken | src/auth/application/handlers/Login.command.handler.ts:73-75 | a successful login stores the returned refresh token on the credential of the normalized email, and changes nothing else |

## Left out

- The exception and response `timestamp` as an ISO string: it is the clock parameter, with no formatting.
- `toLowerCase` and `trim` beyond ASCII letters: lower-casing only maps `A`–`Z`. The whitespace set is the one JavaScript's `trim` removes.
- Lengths are counted as JavaScript counts them, in UTF-16 code units (`Utf16Length`), where that can differ: the name rule. The email and password rules accept only ASCII characters, for which both counts agree.
- UserApplication.GetUserByEmailIn: for an unknown email the controller returns `null` (`src/user/presentation/grpc/UserGrpc.controller.ts:28-30`), and the model assumes the transport delivers this to the caller as a reply with the message's default values (`found` false, empty strings), which is what register and login read (`existingUser.found`, `userResponse.found`). If the transport instead fails to serialise a `null` reply, the lookup raises and the filter answers 500. Then register never succeeds for a new email, and login with an email known to the credentials but not to the user service is a 500 rather than InvalidCredentials. The success lemmas for register, and the lemmas built on them, rest on this assumption.
- Re-wrapping of errors by the gRPC transport: an exception thrown by `createUser` reaches the auth handler unchanged.
- Mongoose's automatic `createdAt`/`updatedAt` on documents: the stored dates are the entity's own.
- ObjectId cast errors for keys that are not ObjectIds: a key is any non-empty string.
- `HttpStatus[status]` for statuses that are not in the listed table: `StatusName` gives no name for them.
- Storage and network failures other than the unique index and the null read, and concurrent requests: steps run one at a time and never fail otherwise.
- The sort of `findAll`: the order is an input (`ordered`), and `SortOf` states only what sort is requested.
- Sub-second clock resolution: time is in whole seconds.
- Bcrypt and JWT internals: hashing, signing and verifying are abstract functions. Their soundness is the hypothesis `HashSound`/`IssuerSound` where needed.
- AuthHandlers.LoginIn: the password is a plain string. Login does no strength check, and how `comparePassword` treats a missing password is not modelled.
- `findManyByCondition`, `updateOneByCondition`, `countByCondition` and the generic `findOneByCondition`: they are only reached through `findByEmail`. That use is modelled as an exact-email lookup; the generic filters are not.
- UserPersistence.UserRepository.DeleteManyByCondition: the `|| 0` fallback is not visible, because the count is always reported.
- The `auth/domain/exceptions/*.exception` files, `src/user/domain/exceptions/UserNotFound.exception` and `AuthDomainService` are not part of this model. The auth handlers and the user-detail handler use the `CommonExceptions` classes of the same names.
- UserApplication.GetDetailIn: the handler imports its own `UserNotFoundException` (`src/user/application/handlers/UserGetDetail.query.handler.ts:4`), which is not part of this model. The model raises the `CommonExceptions` class of that name ("User not found", `USER_NOT_FOUND`, a not-found exception, so 404). The controller's documented 404 "User not found" (`src/user/presentation/http/controllers/User.controller.ts:12`) agrees, but the message, code and base class of the handler's own class are assumed.
- The JWT strategy that gives logout its user id is not part of this model: the id is an input.
- UserDomain.DeletedGuard: the exception's `details` (`{userId}`) are not stated.
- The access-token lifetime from configuration is a field of the issuer (`accessSeconds`).
- The `Transactional` decorator is a no-op in the source. No transaction is modelled, so register's steps are not atomic (see `RegisterLeavesOrphanUser`).
- HTTP controllers, module wiring, Redis, RabbitMQ, logging and configuration loading: they only route, wire or log.

## Findings

| source | as written | input that shows it | evidently intended | confidence | as-written member | corrected member |
|---|---|---|---|---|---|---|
| src/auth/application/handlers/Register.command.handler.ts:70-83, src/auth/infrastructure/mappers/Auth.mapper.ts:15-22, src/auth/infrastructure/repositories/AuthImpl.repository.ts:32-37 | `auth.id = createdUser.id` is dropped by `toPersistence` and `save` always inserts, so the credential gets a key of the store's choosing, while the tokens carry `sub` = user id and refresh/logout look the credential up by that id | any successful register whose generated credential key differs from the new user's id: the refresh token it returns is refused, and logout with the user's id raises UserNotFound | the credential is stored under the user's id, so a register's refresh token works and logout finds the credential | not executed | AuthFlows.RegisterThenRefreshRejected, AuthFlows.ValidatedThenRefreshRejected, AuthFlows.RegisterBreaksLink, AuthFlows.LoginThenRefreshRejected | AuthFlows.RegisterLinkedIn, AuthFlows.RegisterLinkedKeepsLink, AuthFlows.RegisterLinkedThenRefresh |
| src/auth/application/handlers/Login.command.handler.ts:73-75 | `updateLastLogin()` changes only the in-memory entity; only the refresh token is written back | any successful login where the stored `lastLoginAt` was not already the login time: it stays as it was | not evident: the in-memory update is never persisted, and nothing in the source says whether it should be; `LoginRecordingIn` models the variant that persists it | not executed | AuthFlows.LoginLeavesLastLoginStale | AuthFlows.LoginRecordingIn, AuthFlows.LoginRecordingStoresEntity |
| src/user/application/handlers/UserCreate.command.handler.ts:24-35 | the duplicate check looks up the raw payload email, while `UserEntity.create` stores the trimmed, lower-cased one | a stored `a@example.com` and a payload `A@Example.com`: the check passes, and the insert fails on the unique index, a 500 instead of the domain error | the duplicate check uses the normalized email and reports the domain error | not executed | UserApplication.UserCreateCaseVariantCrashes | UserApplication.UserCreateCheckedIn, UserApplication.UserCreateCheckedReportsDuplicates |
