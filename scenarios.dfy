/**
  Sequences of service calls, proved from the methods' contracts alone: what
  a caller of either service can rely on across operations.
 */
module Scenarios {
  import opened Errors
  import opened Text
  import opened Credentials
  import opened ClientIdentifiers
  import opened UserInput
  import opened Users
  import opened OAuthClients

  /** A second create with the same email is refused and leaves the first user as it was. */
  method DuplicateEmailIsRefused(svc: UsersService, dto: CreateUserDto, id1: UserId, id2: UserId, s1: Salt, s2: Salt)
    returns (first: Result<UserView>, second: Result<UserView>)
    requires svc.Valid() && !EmailTaken(svc.users, dto.email) && id1 !in svc.users
    modifies svc
    ensures first.Ok? && first.value.status == UserStatus.Active && !first.value.emailVerified
    ensures second == Err(Conflict)
    ensures id1 in svc.users && Project(svc.users[id1]) == first.value
  {
    first := svc.Create(dto, id1, s1);
    second := svc.Create(dto, id2, s2);
  }

  /** Disable then enable brings an active user back with only updatedAt changed. */
  method DisableThenEnable(svc: UsersService, id: UserId)
    requires svc.Valid() && !IsBlank(id) && id in svc.users && svc.users[id].status == UserStatus.Active
    modifies svc
    ensures svc.Valid() && svc.users.Keys == old(svc.users).Keys
    ensures svc.users[id] == old(svc.users)[id].(updatedAt := old(svc.clock) + 1)
  {
    var a := svc.Disable(id);
    var b := svc.Enable(id);
  }

  /** Verifying an email twice succeeds both times and leaves the flag set. */
  method VerifyEmailTwice(svc: UsersService, id: UserId) returns (a: Result<UserView>, b: Result<UserView>)
    requires svc.Valid() && !IsBlank(id) && id in svc.users
    modifies svc
    ensures a.Ok? && b.Ok? && a.value.emailVerified && b.value.emailVerified
    ensures id in svc.users && svc.users[id] == old(svc.users)[id].(emailVerified := true, updatedAt := old(svc.clock) + 1)
  {
    a := svc.VerifyEmail(id);
    b := svc.VerifyEmail(id);
  }

  /** After a delete the id is unknown to every later lookup. */
  method DeleteThenFind(svc: UsersService, id: UserId) returns (found: Result<UserView>)
    requires svc.Valid() && !IsBlank(id) && id in svc.users
    modifies svc
    ensures found == Err(NotFound)
  {
    var d := svc.Delete(id);
    found := svc.FindById(id);
  }

  /** A new client is active, disabling it makes it inactive, and removing it makes it unknown. */
  method ClientLifecycle(svc: OAuthClientService, dto: CreateOAuthClientDto, newId: RecordId,
                         idBytes: seq<Byte>, secretBytes: seq<Byte>, salt: Salt)
    returns (created: Result<OAuthClient>, activeAfterCreate: Result<bool>, activeAfterDisable: Result<bool>,
             afterRemove: Result<OAuthClient>)
    requires |idBytes| == ClientIdByteCount && |secretBytes| == ClientSecretByteCount
    requires svc.Valid() && newId !in svc.clients && !ClientIdHeld(svc.clients, GenerateClientId(idBytes))
    modifies svc
    ensures created.Ok? && created.value.clientSecret != GenerateClientSecret(secretBytes)
    ensures activeAfterCreate == Ok(true) && activeAfterDisable == Ok(false)
    ensures afterRemove == Err(NotFound)
  {
    created := svc.Create(dto, newId, idBytes, secretBytes, salt);
    activeAfterCreate := svc.IsClientActive(newId);
    var s := svc.UpdateStatus(newId, UpdateClientStatusDto(ClientStatus.Disabled));
    activeAfterDisable := svc.IsClientActive(newId);
    var rm := svc.Remove(newId);
    afterRemove := svc.FindOne(newId);
  }

  /**
    Disabling and re-activating a client both succeed and give back the
    record it had, except for updatedAt.
   */
  method DisableThenReactivateClient(svc: OAuthClientService, id: RecordId)
    returns (first: Result<OAuthClient>, second: Result<OAuthClient>)
    requires svc.Valid() && id in svc.clients && svc.clients[id].status == ClientStatus.Active
    modifies svc
    ensures svc.Valid() && svc.clients.Keys == old(svc.clients).Keys
    ensures first.Ok? && first.value.status == ClientStatus.Disabled
    ensures second.Ok? && second.value == svc.clients[id]
    ensures svc.clients[id] == old(svc.clients)[id].(updatedAt := old(svc.clock) + 1)
  {
    first := svc.UpdateStatus(id, UpdateClientStatusDto(ClientStatus.Disabled));
    second := svc.UpdateStatus(id, UpdateClientStatusDto(ClientStatus.Active));
  }

  /** The generated secret, which no caller is given, verifies against the stored hash. */
  method StoredSecretMatchesGeneratedSecret(svc: OAuthClientService, dto: CreateOAuthClientDto, newId: RecordId,
                                            idBytes: seq<Byte>, secretBytes: seq<Byte>, salt: Salt)
    returns (verdict: Result<bool>)
    requires |idBytes| == ClientIdByteCount && |secretBytes| == ClientSecretByteCount
    requires svc.Valid() && newId !in svc.clients && !ClientIdHeld(svc.clients, GenerateClientId(idBytes))
    modifies svc
    ensures verdict == Ok(true)
  {
    var created := svc.Create(dto, newId, idBytes, secretBytes, salt);
    assert svc.clients[newId].clientId == GenerateClientId(idBytes);
    verdict := svc.VerifyClientSecret(GenerateClientId(idBytes), GenerateClientSecret(secretBytes));
  }
}
