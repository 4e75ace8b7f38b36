# idfy-nest identity backend: a Dafny model of its two services

This project models the bookkeeping core of an identity-provider
administration backend written with NestJS and TypeORM:

- **UsersService**: a table of user records keyed by id. It supports create,
  find all (newest first), find by id, find by email, partial update,
  disable, enable, verify email and delete. Every result is the
  password-free projection `UserView`, except `FindByEmailWithPassword`.
- **OAuthClientService**: a table of OAuth client records keyed by id. It
  supports create, find all, find by id, find by clientId, update, status
  update, remove, client-secret verification and an active check.
- **Client identifiers**: `"client_"` followed by the lowercase hex of 16
  random bytes, and a secret that is the lowercase hex of 32 random bytes.
- **User input rules**: the length bounds and the password pattern declared
  on `CreateUserDto` and `UpdateUserDto`.

Each service is a Dafny `class` whose methods change a `map` field in place,
as the source changes a fetched record and saves it. The repository is that
map. A logical `clock` stands in for TypeORM's timestamps: each save sets
`updatedAt`, and an insert also sets `createdAt`. The bcrypt library is a
value of type `Credentials.Hasher` with two parts, `hash(plain, cost, salt)`
and `matches(plain, hashed)`. `WellFormed` assumes only two things about it:
every hash is 60 characters long, and a plaintext matches its own hash.
Random bytes, salts and the database's fresh ids are method parameters.

Modules: `Errors` (failure kinds, `Result`, `Option`), `Text` (the blank
test `!s || s.trim() === ''`), `Credentials`, `ClientIdentifiers`,
`UserInput`, `Users`, `OAuthClients`, and `Scenarios` (sequences of calls
proved from the contracts alone).

Behaviour of the code that the model keeps:

- The update guards test JavaScript truthiness. A present empty string is
  falsy, so:
  - a user update with email `""` skips the uniqueness lookup, and
    `Object.assign` still writes `""`;
  - a user update with password `""` is not hashed, so `""` is stored;
  - a client update ignores an empty name or redirectUri.
- The declared rules on the user update object reject an empty password,
  firstName or lastName (`UserInput.ValidUpdateFieldsAreTruthy`). Nothing in
  the model rejects an empty email, because `@IsEmail` is a parameter. The
  OAuth client update object declares only `@IsOptional @IsString` on name
  and redirectUri, so `""` passes them, and no predicate models it.
- OAuth `create` hashes the generated secret and returns the saved record.
  So the returned `clientSecret` is the hash, and the plaintext secret never
  reaches any caller (`OAuthClientService.Create` proves the returned
  `clientSecret` differs from the generated secret). The Swagger text says
  otherwise: src/oauth-client/oauth-client.controller.ts:39 and :56, and
  src/oauth-client/dto/oauth-client-secret.dto.ts:14, describe the secret
  as returned once, at creation.
- OAuth `create` has no catch around its save. A failed save reaches the
  caller as the repository's own error, modelled as `SaveFailed`, not as
  `Internal`.
- The user service rejects blank id and email arguments, except in
  `create`. The OAuth service never checks for blank arguments; it looks
  ids up as they are.
- The check for a taken email on update runs only for a truthy email.

## Model

| member | source | states |
|---|---|---|
| Text.TrimStart | src/users/users.service.ts:124 | the result is the suffix left after the maximal run of leading whitespace and line terminators |
| Text.TrimEnd | src/users/users.service.ts:124 | the result is the prefix left after the maximal run of trailing whitespace and line terminators |
| Text.IsBlank | src/users/users.service.ts:124-127 | the blank test on id and email arguments; what it means is proved in Text.BlankIffAllTrimmable |
| Text.BlankIffAllTrimmable | src/users/users.service.ts:124-127 | an argument is blank exactly when every character is ECMAScript whitespace or a line terminator |
| Credentials.WellFormedHasherExists | src/users/users.service.ts:514-524 | the two properties assumed of bcrypt (fixed 60-character hashes, a plaintext matches its own hash) can both hold |
| Credentials.HashIsNotPlaintext | src/users/users.service.ts:514-524 | a hash at cost 10 matches its plaintext, and differs from it whenever the plaintext is not 60 characters long |
| ClientIdentifiers.HexEncode | src/oauth-client/oauth-client.service.ts:196 | the encoding has two characters per byte, all from the lowercase hex alphabet |
| ClientIdentifiers.DecodeEncode | src/oauth-client/oauth-client.service.ts:195-201 | hex-decoding the encoding of any bytes gives those bytes back |
| ClientIdentifiers.EncodeDecode | src/oauth-client/oauth-client.service.ts:195-201 | any string that decodes is exactly the encoding of what it decodes to |
| ClientIdentifiers.GenerateClientId | src/oauth-client/oauth-client.service.ts:195-197 | a client id is 39 characters: the prefix "client_", then lowercase hex only |
| ClientIdentifiers.GenerateClientSecret | src/oauth-client/oauth-client.service.ts:199-201 | a client secret is 64 lowercase hex characters |
| ClientIdentifiers.ClientIdRoundTrip | src/oauth-client/oauth-client.service.ts:195-197 | decoding the part of a client id after its prefix gives back the 16 random bytes |
| ClientIdentifiers.ClientSecretRoundTrip | src/oauth-client/oauth-client.service.ts:199-201 | decoding a client secret gives back the 32 random bytes |
| ClientIdentifiers.ClientIdInjective | src/oauth-client/oauth-client.service.ts:195-197 | different random bytes never give the same client id |
| UserInput.MatchesPasswordPattern | src/users/dto/create-user.dto.ts:23 | the password pattern test; what it accepts is proved in UserInput.PasswordPatternMeaning |
| UserInput.ScanDecidesLookahead | src/users/dto/create-user.dto.ts:23 | the scan that stops at the first line terminator holds exactly when the look-ahead `(?=.*X)` succeeds at position 0 |
| UserInput.PasswordPatternMeaning | src/users/dto/create-user.dto.ts:23 | the pattern matches exactly when a lowercase letter, an uppercase letter, a digit and one of `@$!%*?&` each occur before the first line terminator, and the first character is in `[A-Za-z0-9@$!%*?&]` |
| UserInput.PatternIgnoresSuffix | src/users/dto/create-user.dto.ts:23 | with no end anchor, appending anything to a matching password still matches |
| UserInput.PatternAcceptsOtherCharactersAfterFirst | src/users/dto/create-user.dto.ts:23 | characters outside the final class are accepted after the first one ("Aa1! ~#x" matches) |
| UserInput.PatternStopsAtLineTerminator | src/users/dto/create-user.dto.ts:23 | a special character after a line break does not count ("Aa1\n!bcd" fails) |
| UserInput.IsValidCreateUser | src/users/dto/create-user.dto.ts:10-48 | every decorator on the user create object; its consequences are proved in UserInput.ValidCreatePasswordShape |
| UserInput.IsValidUpdateUser | src/users/dto/update-user.dto.ts:10-48 | every decorator on the user update object, each only for a present field; its consequences are proved in UserInput.EmptyUpdateIsValid, UserInput.ValidUpdateFieldsAreTruthy and UserInput.CreateRulesImplyUpdateRules |
| UserInput.ValidCreatePasswordShape | src/users/dto/create-user.dto.ts:10-48 | a valid create input has four non-empty fields, a password of 8..50 characters with all four classes before any line break and an allowed first character, and names of 2..50 characters |
| UserInput.EmptyUpdateIsValid | src/users/dto/update-user.dto.ts:10-48 | every field is optional, so the empty update object is valid |
| UserInput.ValidUpdateFieldsAreTruthy | src/users/dto/update-user.dto.ts:17-46 | in a valid update, a present password, firstName or lastName is never the empty string |
| UserInput.CreateRulesImplyUpdateRules | src/users/dto/update-user.dto.ts:10-48 | a valid create input, given as an update with every field present, passes the update rules |
| Users.Project | src/users/users.service.ts:526-530 | the response shape of a user; Users.ProjectionForgetsOnlyPassword proves it drops exactly the password |
| Users.ProjectionForgetsOnlyPassword | src/users/users.service.ts:526-530 | two records have the same projection exactly when they differ at most in the password |
| Users.InsertNewestFirstCorrect | src/users/users.service.ts:94-96 | inserting a record keeps the list in strictly descending createdAt order and adds exactly that record |
| Users.PasswordAfterUpdate | src/users/users.service.ts:276-280 | the password stored by an update: hashed when truthy, written as given when "", kept when absent; the three cases are proved in Users.AssignUpdateChangesOnlySuppliedFields, and a valid password's hash in Users.ValidPasswordIsStoredHashed |
| Users.AssignUpdate | src/users/users.service.ts:276-283 | the record an update saves; what changes, including an absent, empty or truthy password, is proved in Users.AssignUpdateChangesOnlySuppliedFields and Users.EmptyUpdateOnlyStamps |
| Users.AssignUpdateChangesOnlySuppliedFields | src/users/users.service.ts:276-283 | update changes each of email, firstName and lastName exactly when the update carries it; an absent password is kept, a truthy one is stored as its hash and "" is stored as given; id, status, emailVerified and createdAt never change |
| Users.EmptyUpdateOnlyStamps | src/users/users.service.ts:282-283 | an empty update object leaves the record unchanged except for updatedAt |
| Users.ValidPasswordIsStoredHashed | src/users/users.service.ts:276-280 | a password that passes the input rules is stored as a hash that matches it and is never the plaintext |
| Users.SaveKeepsInvariant | src/users/users.service.ts:283 | saving a changed record under its id keeps ids consistent, timestamps ordered and creation times distinct |
| Users.SaveKeepsEmailsDistinct | src/users/users.service.ts:258-273 | saving a record whose email is its old one, or held by no one, keeps emails pairwise distinct |
| Users.UsersService.constructor | src/users/users.service.ts:24-27 | the service starts with an empty table |
| Users.UsersService.LookupByEmail | src/users/users.service.ts:36-38 | returns a stored record with that email if one exists, and none exactly when no record holds it |
| Users.UsersService.Create | src/users/users.service.ts:29-89 | Conflict iff the email is held, and nothing is written; otherwise exactly one new record (ACTIVE, unverified, password = hash of the plaintext, never a valid plaintext), other records unchanged, its projection returned; pairwise-distinct emails stay distinct |
| Users.UsersService.FindAll | src/users/users.service.ts:91-119 | returns the projection of every stored record and nothing else, strictly newest first (so each once); an empty table gives [] |
| Users.UsersService.FindById | src/users/users.service.ts:121-173 | BadRequest for a blank id before any lookup, NotFound for an unknown id, else the record's projection |
| Users.UsersService.FindByEmail | src/users/users.service.ts:175-227 | BadRequest for a blank email, NotFound when no record holds it, else the projection of a record with that email |
| Users.UsersService.Update | src/users/users.service.ts:229-314 | checks in order: blank id, unknown id, a truthy new email held elsewhere (Conflict); nothing is written on an error; on success only the supplied fields change, a valid password is stored hashed, and distinct emails stay distinct unless the email is "" |
| Users.UsersService.SetStatus | src/users/users.service.ts:339-341 | sets the status of an existing record, stamps it and changes nothing else; BadRequest or NotFound otherwise, writing nothing |
| Users.UsersService.Disable | src/users/users.service.ts:316-364 | BadRequest or NotFound, writing nothing; otherwise status becomes DISABLED and no other field except updatedAt changes |
| Users.UsersService.Enable | src/users/users.service.ts:366-414 | BadRequest or NotFound, writing nothing; otherwise status becomes ACTIVE and no other field except updatedAt changes |
| Users.UsersService.Delete | src/users/users.service.ts:416-440 | BadRequest or NotFound, writing nothing; otherwise exactly that record is removed |
| Users.UsersService.VerifyEmail | src/users/users.service.ts:442-469 | BadRequest or NotFound, writing nothing; otherwise emailVerified becomes true whatever it was, nothing else but updatedAt changes |
| Users.UsersService.VerifyPassword | src/users/users.service.ts:471-484 | returns the hasher's verdict, which is true for a plaintext against any hash made from it |
| Users.UsersService.FindByEmailWithPassword | src/users/users.service.ts:486-512 | BadRequest for a blank email, NotFound when no record holds it, else a whole stored record with that email |
| OAuthClients.ApplyClientUpdate | src/oauth-client/oauth-client.service.ts:136-144 | the record a client update saves; what changes is proved in OAuthClients.ClientUpdateTouchesOnlyNameAndRedirect |
| OAuthClients.ClientUpdateTouchesOnlyNameAndRedirect | src/oauth-client/oauth-client.service.ts:136-144 | update replaces name and redirectUri only when a non-empty value is given; clientId, clientSecret, status and createdAt never change, and a status in the update object has no effect |
| OAuthClients.OAuthClientService.constructor | src/oauth-client/oauth-client.service.ts:22-25 | the service starts with an empty table |
| OAuthClients.OAuthClientService.Create | src/oauth-client/oauth-client.service.ts:27-64 | fails (SaveFailed, the uncaught repository error) iff the fresh id or the generated clientId is already in use, writing nothing; otherwise adds one ACTIVE record with the generated clientId and the hash of the generated secret, and returns that record, whose clientSecret matches the secret but never equals it |
| OAuthClients.OAuthClientService.FindAll | src/oauth-client/oauth-client.service.ts:66-78 | returns every stored record exactly once and nothing else |
| OAuthClients.OAuthClientService.FindOne | src/oauth-client/oauth-client.service.ts:80-96 | the record with that id, or NotFound |
| OAuthClients.OAuthClientService.LookupByClientId | src/oauth-client/oauth-client.service.ts:102-104 | returns the stored record with that clientId if one exists, and none exactly when no record holds it |
| OAuthClients.OAuthClientService.FindByClientId | src/oauth-client/oauth-client.service.ts:98-122 | NotFound when no record holds the clientId, else the single record that does |
| OAuthClients.OAuthClientService.Update | src/oauth-client/oauth-client.service.ts:124-153 | NotFound for an unknown id, writing nothing; else saves the record with only a non-empty name or redirectUri replaced, and returns it |
| OAuthClients.OAuthClientService.UpdateStatus | src/oauth-client/oauth-client.service.ts:155-179 | NotFound for an unknown id, writing nothing; else the status becomes the requested one (any to any) and nothing else but updatedAt changes |
| OAuthClients.OAuthClientService.Remove | src/oauth-client/oauth-client.service.ts:181-193 | NotFound for an unknown id, writing nothing; else exactly that record is removed |
| OAuthClients.OAuthClientService.VerifyClientSecret | src/oauth-client/oauth-client.service.ts:203-227 | NotFound for an unknown clientId; else exactly the hasher's verdict on the secret against the stored hash; nothing is written |
| OAuthClients.OAuthClientService.IsClientActive | src/oauth-client/oauth-client.service.ts:229-240 | NotFound for an unknown id, else true iff the stored status is ACTIVE |
| Scenarios.DuplicateEmailIsRefused | src/users/users.service.ts:36-60 | a first create succeeds with an ACTIVE, unverified user; a second create with that email is a Conflict and the first user is unchanged |
| Scenarios.DisableThenEnable | src/users/users.service.ts:339-391 | disabling then enabling an active user restores it with only updatedAt changed |
| Scenarios.VerifyEmailTwice | src/users/users.service.ts:455-461 | verifying an email twice succeeds both times with the flag set |
| Scenarios.DeleteThenFind | src/users/users.service.ts:420-430 | after a delete, finding the id fails with NotFound |
| Scenarios.ClientLifecycle | src/oauth-client/oauth-client.service.ts:35-186 | a new client is active and does not carry its plaintext secret; after a status update to DISABLED it is inactive; after remove it is NotFound |
| Scenarios.DisableThenReactivateClient | src/oauth-client/oauth-client.service.ts:155-179 | disabling then re-activating an active client succeeds both times and gives back its old record with only updatedAt changed |
| Scenarios.StoredSecretMatchesGeneratedSecret | src/oauth-client/oauth-client.service.ts:35-48 | the generated secret, which no caller receives, verifies against the stored hash |

## Left out

- Logging is not modelled. That covers every logger call, the durations taken from `Date.now()`, and the audit sink. None of it changes state or results.
- Controllers, HTTP routing, Swagger metadata and the controllers' response mapping are not modelled. This includes the class-transformer mapping of client responses.
- bcrypt is a parameter (`Hasher`). Its salt and cost are opaque. Nothing is assumed about other plaintexts against a hash, because bcrypt reads only the first 72 bytes.
- Users.UsersService.VerifyPassword: does not promise false for a wrong plaintext. The hasher model makes no such assumption (see the bcrypt line above).
- OAuthClients.OAuthClientService.VerifyClientSecret: does not promise false for a wrong secret, for the same reason (see the bcrypt line above).
- Failures of foreign code are modelled in one form only: a save that breaks a key constraint. For a user, that is the database's fresh id colliding, which the catch-all turns into Internal. For an OAuth client, it is the fresh id colliding or a clientId already held, which reaches the caller uncaught as SaveFailed. Hashing failures, lost connections and other database errors are not modelled.
- The `!id` arm of the blank test for `undefined` and `null` is not modelled, because arguments are typed `string`. For a string, `!id` holds only of `""`, and the trim test already covers `""`.
- Ids are arbitrary strings. The database's uuid format checks are not modelled.
- Every save stamps `updatedAt`, even when no column changed. TypeORM's skipping of unchanged saves is not modelled.
- Each operation is one sequential step. Concurrent requests, and the race between the email check and the write, are not modelled.
- Users.UsersService.Update: keeps emails pairwise distinct only when the update's email is not `""`. The code tests the email's truthiness, so `""` skips the lookup. No unique constraint on the user email column is visible, so the model does not assume one.
- Users.UsersService.Update: a field sent as `null` is not modelled; an absent field is `None`, meaning undefined. `@IsOptional` lets `null` through, `Object.assign` would copy it onto the record, and if the column is not nullable the save fails and the catch-all turns that into Internal. The user entity file is not part of this model.
- Update objects are the declared DTO shapes. A raw request body with undeclared keys would be copied whole by `Object.assign`, and that is not modelled; no validation pipe is visible.
- `@IsEmail` is not modelled; it is the parameter `isEmail`. The validation library's own length counting is not modelled; lengths here are counts of Dafny characters.
