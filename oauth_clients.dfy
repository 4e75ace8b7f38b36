/**
  The OAuth client registry: OAuthClientService over an in-memory table from
  id to client record, which stands for the TypeORM repository. Saves stamp
  `updatedAt` from a logical clock. The service hands back whole records; the
  stored `clientSecret` is always the bcrypt hash of the generated secret,
  and `create` returns the saved record, so the plaintext secret is never
  revealed to any caller.
 */
module OAuthClients {
  import opened Errors
  import opened Credentials
  import opened ClientIdentifiers

  type RecordId = string

  datatype ClientStatus = Active | Disabled

  /** oauth-client.entity.ts: the stored record. */
  datatype OAuthClient = OAuthClient(
    id: RecordId, name: string, clientId: string, clientSecret: string,
    redirectUri: string, status: ClientStatus, createdAt: nat, updatedAt: nat)

  datatype CreateOAuthClientDto = CreateOAuthClientDto(name: string, redirectUri: string)

  /** Declares a status too, which `update` ignores. */
  datatype UpdateOAuthClientDto = UpdateOAuthClientDto(
    name: Option<string>, redirectUri: Option<string>, status: Option<ClientStatus>)

  datatype UpdateClientStatusDto = UpdateClientStatusDto(status: ClientStatus)

  ghost predicate ClientIdHeld(clients: map<RecordId, OAuthClient>, clientId: string) {
    exists k :: k in clients && clients[k].clientId == clientId
  }

  /**
    Records are stored under their own id, stamps lie in the past of the clock,
    and no two records share a clientId (the column is declared unique).
   */
  ghost predicate RegistryInvariant(clients: map<RecordId, OAuthClient>, clock: nat) {
    && (forall id :: id in clients ==>
          clients[id].id == id && clients[id].createdAt <= clients[id].updatedAt < clock)
    && (forall i, j :: i in clients && j in clients && i != j ==> clients[i].clientId != clients[j].clientId)
  }

  /** The record `update` saves: a truthy name or redirectUri replaces the old one, then the save stamp. */
  function ApplyClientUpdate(c: OAuthClient, dto: UpdateOAuthClientDto, now: nat): OAuthClient {
    c.(
      name := if IsTruthy(dto.name) then dto.name.value else c.name,
      redirectUri := if IsTruthy(dto.redirectUri) then dto.redirectUri.value else c.redirectUri,
      updatedAt := now)
  }

  /**
    `update` touches name and redirectUri only, each only when a non-empty
    value is supplied; the status in the update object has no effect.
   */
  lemma ClientUpdateTouchesOnlyNameAndRedirect(c: OAuthClient, dto: UpdateOAuthClientDto, now: nat)
    ensures var c' := ApplyClientUpdate(c, dto, now);
      && c'.id == c.id && c'.clientId == c.clientId && c'.clientSecret == c.clientSecret
      && c'.status == c.status && c'.createdAt == c.createdAt && c'.updatedAt == now
      && (c'.name == if IsTruthy(dto.name) then dto.name.value else c.name)
      && (c'.redirectUri == if IsTruthy(dto.redirectUri) then dto.redirectUri.value else c.redirectUri)
      && c' == ApplyClientUpdate(c, dto.(status := None), now)
  {
  }

  class OAuthClientService {
    const hasher: Hasher
    var clients: map<RecordId, OAuthClient>
    var clock: nat

    ghost predicate Valid()
      reads this
    {
      WellFormed(hasher) && RegistryInvariant(clients, clock)
    }

    constructor (hasher: Hasher)
      requires WellFormed(hasher)
      ensures Valid() && this.hasher == hasher && clients == map[]
    {
      this.hasher := hasher;
      clients := map[];
      clock := 0;
    }

    /**
      oauth-client.service.ts:27-64. `idBytes` and `secretBytes` are the two
      draws of crypto.randomBytes. The saved record holds the hash of the
      secret, and that record is what is returned. The database's fresh id
      colliding, or a clientId already held (a unique column), fails at save;
      nothing catches that failure, so it reaches the caller as SaveFailed.
     */
    method Create(dto: CreateOAuthClientDto, newId: RecordId, idBytes: seq<Byte>, secretBytes: seq<Byte>, salt: Salt)
      returns (r: Result<OAuthClient>)
      requires Valid()
      requires |idBytes| == ClientIdByteCount && |secretBytes| == ClientSecretByteCount
      modifies this
      ensures Valid()
      ensures newId in old(clients) || ClientIdHeld(old(clients), GenerateClientId(idBytes)) <==> r.Err?
      ensures r.Err? ==> r.error == SaveFailed && clients == old(clients) && clock == old(clock)
      ensures r.Ok? ==>
        && (var c := OAuthClient(newId, dto.name, GenerateClientId(idBytes),
                                 hasher.hash(GenerateClientSecret(secretBytes), SaltRounds, salt),
                                 dto.redirectUri, Active, old(clock), old(clock));
            clients == old(clients)[newId := c] && r.value == c)
        && clock == old(clock) + 1
      ensures r.Ok? ==> hasher.matches(GenerateClientSecret(secretBytes), r.value.clientSecret)
      ensures r.Ok? ==> r.value.clientSecret != GenerateClientSecret(secretBytes)
    {
      var clientId := GenerateClientId(idBytes);
      var clientSecret := GenerateClientSecret(secretBytes);
      var hashedSecret := hasher.hash(clientSecret, SaltRounds, salt);
      var holder := LookupByClientId(clientId);
      if newId in clients || holder.Some? {
        return Err(SaveFailed);
      }
      var c := OAuthClient(newId, dto.name, clientId, hashedSecret, dto.redirectUri, Active, clock, clock);
      clients := clients[newId := c];
      clock := clock + 1;
      r := Ok(c);
    }

    /** oauth-client.service.ts:66-78: every record once, in no promised order. */
    method FindAll() returns (r: seq<OAuthClient>)
      requires Valid()
      ensures forall c :: c in r ==> c.id in clients && clients[c.id] == c
      ensures forall id :: id in clients ==> clients[id] in r
      ensures forall i, j :: 0 <= i < j < |r| ==> r[i].id != r[j].id
    {
      r := [];
      var rest := clients.Keys;
      while rest != {}
        invariant rest <= clients.Keys
        invariant forall c :: c in r ==> c.id in clients && clients[c.id] == c && c.id !in rest
        invariant forall id :: id in clients && id !in rest ==> clients[id] in r
        invariant forall i, j :: 0 <= i < j < |r| ==> r[i].id != r[j].id
        decreases rest
      {
        var id :| id in rest;
        r := r + [clients[id]];
        rest := rest - {id};
      }
    }

    /** oauth-client.service.ts:80-96 */
    method FindOne(id: RecordId) returns (r: Result<OAuthClient>)
      requires Valid()
      ensures id in clients ==> r == Ok(clients[id])
      ensures id !in clients ==> r == Err(NotFound)
    {
      if id !in clients {
        return Err(NotFound);
      }
      r := Ok(clients[id]);
    }

    /** The repository's `findOne({ where: { clientId } })`. */
    method LookupByClientId(clientId: string) returns (found: Option<OAuthClient>)
      requires Valid()
      ensures found.None? <==> !ClientIdHeld(clients, clientId)
      ensures found.Some? ==>
        found.value.id in clients && clients[found.value.id] == found.value && found.value.clientId == clientId
    {
      var rest := clients.Keys;
      while rest != {}
        invariant rest <= clients.Keys
        invariant forall k :: k in clients && k !in rest ==> clients[k].clientId != clientId
        decreases rest
      {
        var k :| k in rest;
        if clients[k].clientId == clientId {
          return Some(clients[k]);
        }
        rest := rest - {k};
      }
      return None;
    }

    /** oauth-client.service.ts:98-122: the one record holding that clientId. */
    method FindByClientId(clientId: string) returns (r: Result<OAuthClient>)
      requires Valid()
      ensures !ClientIdHeld(clients, clientId) ==> r == Err(NotFound)
      ensures forall k :: k in clients && clients[k].clientId == clientId ==> r == Ok(clients[k])
    {
      var found := LookupByClientId(clientId);
      if found.None? {
        return Err(NotFound);
      }
      r := Ok(found.value);
    }

    /** oauth-client.service.ts:124-153 */
    method Update(id: RecordId, dto: UpdateOAuthClientDto) returns (r: Result<OAuthClient>)
      requires Valid()
      modifies this
      ensures Valid()
      ensures id !in old(clients) ==> r == Err(NotFound) && clients == old(clients) && clock == old(clock)
      ensures id in old(clients) ==>
        && clients == old(clients)[id := ApplyClientUpdate(old(clients)[id], dto, old(clock))]
        && r == Ok(clients[id])
        && clock == old(clock) + 1
    {
      var found := FindOne(id);
      if found.Err? {
        return Err(found.error);
      }
      var c := found.value;
      if IsTruthy(dto.name) {
        c := c.(name := dto.name.value);
      }
      if IsTruthy(dto.redirectUri) {
        c := c.(redirectUri := dto.redirectUri.value);
      }
      c := c.(updatedAt := clock);
      clients := clients[id := c];
      clock := clock + 1;
      r := Ok(c);
    }

    /** oauth-client.service.ts:155-179: any status may follow any other. */
    method UpdateStatus(id: RecordId, dto: UpdateClientStatusDto) returns (r: Result<OAuthClient>)
      requires Valid()
      modifies this
      ensures Valid()
      ensures id !in old(clients) ==> r == Err(NotFound) && clients == old(clients) && clock == old(clock)
      ensures id in old(clients) ==>
        && clients == old(clients)[id := old(clients)[id].(status := dto.status, updatedAt := old(clock))]
        && r == Ok(clients[id])
        && clock == old(clock) + 1
    {
      var found := FindOne(id);
      if found.Err? {
        return Err(found.error);
      }
      var c := found.value.(status := dto.status, updatedAt := clock);
      clients := clients[id := c];
      clock := clock + 1;
      r := Ok(c);
    }

    /** oauth-client.service.ts:181-193: a hard delete. */
    method Remove(id: RecordId) returns (r: Result<()>)
      requires Valid()
      modifies this
      ensures Valid()
      ensures id !in old(clients) ==> r == Err(NotFound) && clients == old(clients)
      ensures id in old(clients) ==> r == Ok(()) && clients == old(clients) - {id}
      ensures clock == old(clock)
    {
      var found := FindOne(id);
      if found.Err? {
        return Err(found.error);
      }
      clients := clients - {id};
      r := Ok(());
    }

    /** oauth-client.service.ts:203-227: the hasher's verdict against the stored hash. */
    method VerifyClientSecret(clientId: string, clientSecret: string) returns (r: Result<bool>)
      requires Valid()
      ensures !ClientIdHeld(clients, clientId) ==> r == Err(NotFound)
      ensures forall k :: k in clients && clients[k].clientId == clientId ==>
        r == Ok(hasher.matches(clientSecret, clients[k].clientSecret))
    {
      var found := FindByClientId(clientId);
      if found.Err? {
        return Err(found.error);
      }
      r := Ok(hasher.matches(clientSecret, found.value.clientSecret));
    }

    /** oauth-client.service.ts:229-240 */
    method IsClientActive(id: RecordId) returns (r: Result<bool>)
      requires Valid()
      ensures id !in clients ==> r == Err(NotFound)
      ensures id in clients ==> r == Ok(clients[id].status == Active)
    {
      var found := FindOne(id);
      if found.Err? {
        return Err(found.error);
      }
      r := Ok(found.value.status == Active);
    }
  }
}
