/**
  The user store: UsersService over an in-memory table from id to user
  record, which stands for the TypeORM repository. Each operation checks its
  argument, looks the record up, changes it in place and saves it back. Every
  save stamps `updatedAt` from a logical clock (an insert stamps `createdAt`
  too), and every value handed back to callers except from
  FindByEmailWithPassword is the password-free projection UserView.
 */
module Users {
  import opened Errors
  import opened Text
  import opened Credentials
  import opened UserInput

  type UserId = string

  datatype UserStatus = Active | Disabled

  /** The stored record; `password` holds what was written there, normally a bcrypt hash. */
  datatype User = User(
    id: UserId, email: string, password: string,
    firstName: string, lastName: string,
    status: UserStatus, emailVerified: bool,
    createdAt: nat, updatedAt: nat)

  /** UserResponseDto: the fields marked @Expose, which leave the password out. */
  datatype UserView = UserView(
    id: UserId, email: string,
    firstName: string, lastName: string,
    status: UserStatus, emailVerified: bool,
    createdAt: nat, updatedAt: nat)

  /** mapUserToResponseDto */
  function Project(u: User): UserView {
    UserView(u.id, u.email, u.firstName, u.lastName, u.status, u.emailVerified, u.createdAt, u.updatedAt)
  }

  /** Two records have the same projection exactly when they differ at most in the password. */
  lemma ProjectionForgetsOnlyPassword(u: User, w: User)
    ensures Project(u) == Project(w) <==> u.(password := w.password) == w
  {
  }

  ghost predicate EmailTaken(users: map<UserId, User>, email: string) {
    exists k :: k in users && users[k].email == email
  }

  ghost predicate EmailsDistinct(users: map<UserId, User>) {
    forall i, j :: i in users && j in users && i != j ==> users[i].email != users[j].email
  }

  /** Strictly descending creation time, as `order: { createdAt: 'DESC' }` with distinct stamps. */
  predicate NewestFirst(us: seq<User>) {
    forall i, j :: 0 <= i < j < |us| ==> us[i].createdAt > us[j].createdAt
  }

  /** Insert `u` into a newest-first list at its place. */
  function InsertNewestFirst(us: seq<User>, u: User): seq<User> {
    if us == [] || us[0].createdAt < u.createdAt then [u] + us
    else [us[0]] + InsertNewestFirst(us[1..], u)
  }

  lemma PrependNewestFirst(x: User, us: seq<User>)
    requires NewestFirst(us)
    requires forall v :: v in us ==> v.createdAt < x.createdAt
    ensures NewestFirst([x] + us)
  {
    forall i, j | 0 <= i < j < |[x] + us| ensures ([x] + us)[i].createdAt > ([x] + us)[j].createdAt {
      assert ([x] + us)[j] == us[j - 1];
      if i > 0 {
        assert ([x] + us)[i] == us[i - 1];
      }
    }
  }

  /** Insertion keeps the list newest first and adds exactly the one record. */
  lemma {:induction false} InsertNewestFirstCorrect(us: seq<User>, u: User)
    requires NewestFirst(us)
    requires forall v :: v in us ==> v.createdAt != u.createdAt
    ensures NewestFirst(InsertNewestFirst(us, u))
    ensures multiset(InsertNewestFirst(us, u)) == multiset(us) + multiset{u}
    ensures forall v :: v in InsertNewestFirst(us, u) <==> v in us || v == u
  {
    if us == [] || us[0].createdAt < u.createdAt {
      forall v | v in us ensures v.createdAt < u.createdAt {
        var k :| 0 <= k < |us| && us[k] == v;
        assert k == 0 || us[0].createdAt > us[k].createdAt;
      }
      PrependNewestFirst(u, us);
    } else {
      var tail := us[1..];
      assert us == [us[0]] + tail;
      assert NewestFirst(tail);
      InsertNewestFirstCorrect(tail, u);
      var rest := InsertNewestFirst(tail, u);
      forall v | v in rest ensures v.createdAt < us[0].createdAt {
        if v != u {
          var k :| 0 <= k < |tail| && tail[k] == v;
          assert us[k + 1] == v;
        }
      }
      PrependNewestFirst(us[0], rest);
    }
  }

  /**
    The password field after `update` (users.service.ts:276-282): a truthy
    password is replaced by its hash before Object.assign copies it; an empty
    one is falsy, so it is copied as it is.
   */
  function PasswordAfterUpdate(current: string, supplied: Option<string>, h: Hasher, salt: Salt): string {
    match supplied
    case None => current
    case Some(p) => if p != "" then h.hash(p, SaltRounds, salt) else p
  }

  /**
    The record `update` saves: Object.assign of the update object, whose
    password has been replaced by its hash when truthy, then the save stamp.
   */
  function AssignUpdate(u: User, dto: UpdateUserDto, h: Hasher, salt: Salt, now: nat): User {
    u.(
      email := if dto.email.Some? then dto.email.value else u.email,
      password := PasswordAfterUpdate(u.password, dto.password, h, salt),
      firstName := if dto.firstName.Some? then dto.firstName.value else u.firstName,
      lastName := if dto.lastName.Some? then dto.lastName.value else u.lastName,
      updatedAt := now)
  }

  /**
    An update changes a field exactly when the update object carries it (the
    password then holds its hash if truthy, and "" as given); id, status,
    emailVerified and createdAt never change.
   */
  lemma AssignUpdateChangesOnlySuppliedFields(u: User, dto: UpdateUserDto, h: Hasher, salt: Salt, now: nat)
    ensures var u' := AssignUpdate(u, dto, h, salt, now);
      && u'.id == u.id && u'.status == u.status && u'.emailVerified == u.emailVerified
      && u'.createdAt == u.createdAt && u'.updatedAt == now
      && (dto.email.None? ==> u'.email == u.email)
      && (dto.email.Some? ==> u'.email == dto.email.value)
      && (dto.password.None? ==> u'.password == u.password)
      && (IsTruthy(dto.password) ==> u'.password == h.hash(dto.password.value, SaltRounds, salt))
      && (dto.password == Some("") ==> u'.password == "")
      && (dto.firstName.None? ==> u'.firstName == u.firstName)
      && (dto.firstName.Some? ==> u'.firstName == dto.firstName.value)
      && (dto.lastName.None? ==> u'.lastName == u.lastName)
      && (dto.lastName.Some? ==> u'.lastName == dto.lastName.value)
  {
  }

  /** An empty update object leaves the record as it was but for updatedAt. */
  lemma EmptyUpdateOnlyStamps(u: User, h: Hasher, salt: Salt, now: nat)
    ensures AssignUpdate(u, UpdateUserDto(None, None, None, None), h, salt, now) == u.(updatedAt := now)
  {
  }

  /** A password that passes the update rules is stored hashed: matching it, and never as itself. */
  lemma ValidPasswordIsStoredHashed(current: string, p: string, h: Hasher, salt: Salt)
    requires WellFormed(h) && IsValidPassword(p)
    ensures PasswordAfterUpdate(current, Some(p), h, salt) != p
    ensures h.matches(p, PasswordAfterUpdate(current, Some(p), h, salt))
  {
    HashIsNotPlaintext(h, p, salt);
  }

  /**
    Records are stored under their own id, stamps lie in the past of the
    clock with createdAt <= updatedAt, and no two records share a createdAt.
   */
  ghost predicate StoreInvariant(users: map<UserId, User>, clock: nat) {
    && (forall id :: id in users ==>
          users[id].id == id && users[id].createdAt <= users[id].updatedAt < clock)
    && (forall i, j :: i in users && j in users && i != j ==> users[i].createdAt != users[j].createdAt)
  }

  /** Saving a changed record under its id, stamped with the clock, keeps the invariant. */
  lemma SaveKeepsInvariant(users: map<UserId, User>, clock: nat, u: User)
    requires StoreInvariant(users, clock) && u.id in users
    requires u.createdAt == users[u.id].createdAt && u.updatedAt == clock
    ensures StoreInvariant(users[u.id := u], clock + 1)
  {
  }

  /** Saving a record whose email is its old one or unheld elsewhere keeps emails distinct. */
  lemma SaveKeepsEmailsDistinct(users: map<UserId, User>, u: User)
    requires EmailsDistinct(users) && u.id in users
    requires u.email == users[u.id].email || !EmailTaken(users, u.email)
    ensures EmailsDistinct(users[u.id := u])
  {
  }

  class UsersService {
    const hasher: Hasher
    var users: map<UserId, User>
    var clock: nat

    ghost predicate Valid()
      reads this
    {
      WellFormed(hasher) && StoreInvariant(users, clock)
    }

    constructor (hasher: Hasher)
      requires WellFormed(hasher)
      ensures Valid() && this.hasher == hasher && users == map[]
    {
      this.hasher := hasher;
      users := map[];
      clock := 0;
    }

    /** The repository's `findOne({ where: { email } })`. */
    method LookupByEmail(email: string) returns (found: Option<User>)
      requires Valid()
      ensures found.None? <==> !EmailTaken(users, email)
      ensures found.Some? ==>
        found.value.id in users && users[found.value.id] == found.value && found.value.email == email
    {
      var rest := users.Keys;
      while rest != {}
        invariant rest <= users.Keys
        invariant forall k :: k in users && k !in rest ==> users[k].email != email
        decreases rest
      {
        var k :| k in rest;
        if users[k].email == email {
          return Some(users[k]);
        }
        rest := rest - {k};
      }
      return None;
    }

    /**
      users.service.ts:29-89. Conflict when the email is held; otherwise the
      new record is ACTIVE, unverified, with the hash of the password. A
      `newId` already in use (the database's fresh id colliding) fails at save,
      which the catch-all turns into Internal.
     */
    method Create(dto: CreateUserDto, newId: UserId, salt: Salt) returns (r: Result<UserView>)
      requires Valid()
      modifies this
      ensures Valid()
      ensures EmailTaken(old(users), dto.email) ==> r == Err(Conflict)
      ensures !EmailTaken(old(users), dto.email) && newId in old(users) ==> r == Err(Internal)
      ensures r.Ok? <==> !EmailTaken(old(users), dto.email) && newId !in old(users)
      ensures r.Err? ==> users == old(users) && clock == old(clock)
      ensures r.Ok? ==>
        && (var u := User(newId, dto.email, hasher.hash(dto.password, SaltRounds, salt),
                          dto.firstName, dto.lastName, Active, false, old(clock), old(clock));
            users == old(users)[newId := u] && r.value == Project(u))
        && clock == old(clock) + 1
      ensures r.Ok? ==> hasher.matches(dto.password, users[newId].password)
      ensures r.Ok? && IsValidPassword(dto.password) ==> users[newId].password != dto.password
      ensures old(EmailsDistinct(users)) ==> EmailsDistinct(users)
    {
      var existing := LookupByEmail(dto.email);
      if existing.Some? {
        return Err(Conflict);
      }
      var hashed := hasher.hash(dto.password, SaltRounds, salt);
      if newId in users {
        return Err(Internal);
      }
      var u := User(newId, dto.email, hashed, dto.firstName, dto.lastName, Active, false, clock, clock);
      if IsValidPassword(dto.password) {
        HashIsNotPlaintext(hasher, dto.password, salt);
      }
      users := users[newId := u];
      clock := clock + 1;
      r := Ok(Project(u));
    }

    /** users.service.ts:91-119: every record, newest first. */
    method FindAll() returns (r: seq<UserView>)
      requires Valid()
      ensures forall v :: v in r ==> v.id in users && v == Project(users[v.id])
      ensures forall id :: id in users ==> Project(users[id]) in r
      ensures forall i, j :: 0 <= i < j < |r| ==> r[i].createdAt > r[j].createdAt
    {
      var sorted: seq<User> := [];
      var rest := users.Keys;
      while rest != {}
        invariant rest <= users.Keys
        invariant NewestFirst(sorted)
        invariant forall u :: u in sorted ==> u.id in users && users[u.id] == u && u.id !in rest
        invariant forall id :: id in users && id !in rest ==> users[id] in sorted
        decreases rest
      {
        var id :| id in rest;
        InsertNewestFirstCorrect(sorted, users[id]);
        sorted := InsertNewestFirst(sorted, users[id]);
        rest := rest - {id};
      }
      r := seq(|sorted|, i requires 0 <= i < |sorted| => Project(sorted[i]));
      forall id | id in users ensures Project(users[id]) in r {
        var i :| 0 <= i < |sorted| && sorted[i] == users[id];
        assert r[i] == Project(users[id]);
      }
    }

    /** users.service.ts:121-173 */
    method FindById(id: UserId) returns (r: Result<UserView>)
      requires Valid()
      ensures IsBlank(id) ==> r == Err(BadRequest)
      ensures !IsBlank(id) && id !in users ==> r == Err(NotFound)
      ensures !IsBlank(id) && id in users ==> r == Ok(Project(users[id]))
    {
      if IsBlank(id) {
        return Err(BadRequest);
      }
      if id !in users {
        return Err(NotFound);
      }
      r := Ok(Project(users[id]));
    }

    /** users.service.ts:175-227 */
    method FindByEmail(email: string) returns (r: Result<UserView>)
      requires Valid()
      ensures IsBlank(email) ==> r == Err(BadRequest)
      ensures !IsBlank(email) && !EmailTaken(users, email) ==> r == Err(NotFound)
      ensures !IsBlank(email) && EmailTaken(users, email) ==>
        r.Ok? && r.value.id in users && users[r.value.id].email == email && r.value == Project(users[r.value.id])
    {
      if IsBlank(email) {
        return Err(BadRequest);
      }
      var found := LookupByEmail(email);
      if found.None? {
        return Err(NotFound);
      }
      r := Ok(Project(found.value));
    }

    /**
      users.service.ts:229-314. Error order: blank id, unknown id, then a
      truthy email that differs from the current one and is held elsewhere.
      Object.assign then copies every present field, so a present "" is
      written as it is.
     */
    method Update(id: UserId, dto: UpdateUserDto, salt: Salt) returns (r: Result<UserView>)
      requires Valid()
      modifies this
      ensures Valid()
      ensures IsBlank(id) ==> r == Err(BadRequest)
      ensures !IsBlank(id) && id !in old(users) ==> r == Err(NotFound)
      ensures !IsBlank(id) && id in old(users) && IsTruthy(dto.email)
              && dto.email.value != old(users)[id].email && EmailTaken(old(users), dto.email.value)
              ==> r == Err(Conflict)
      ensures r.Ok? <==>
        && !IsBlank(id) && id in old(users)
        && !(IsTruthy(dto.email) && dto.email.value != old(users)[id].email && EmailTaken(old(users), dto.email.value))
      ensures r.Err? ==> users == old(users) && clock == old(clock)
      ensures r.Ok? ==>
        && users == old(users)[id := AssignUpdate(old(users)[id], dto, hasher, salt, old(clock))]
        && r.value == Project(users[id])
        && clock == old(clock) + 1
      ensures r.Ok? && dto.password.Some? && IsValidPassword(dto.password.value) ==>
        users[id].password != dto.password.value && hasher.matches(dto.password.value, users[id].password)
      ensures old(EmailsDistinct(users)) && dto.email != Some("") ==> EmailsDistinct(users)
    {
      if IsBlank(id) {
        return Err(BadRequest);
      }
      if id !in users {
        return Err(NotFound);
      }
      var u := users[id];
      if IsTruthy(dto.email) && dto.email.value != u.email {
        var holder := LookupByEmail(dto.email.value);
        if holder.Some? {
          return Err(Conflict);
        }
      }
      u := AssignUpdate(u, dto, hasher, salt, clock);
      if dto.password.Some? && IsValidPassword(dto.password.value) {
        ValidPasswordIsStoredHashed(users[id].password, dto.password.value, hasher, salt);
      }
      SaveKeepsInvariant(users, clock, u);
      if EmailsDistinct(users) && dto.email != Some("") {
        SaveKeepsEmailsDistinct(users, u);
      }
      users := users[id := u];
      clock := clock + 1;
      r := Ok(Project(u));
    }

    /** Shared by Disable and Enable: set the status of an existing record and save it. */
    method SetStatus(id: UserId, status: UserStatus) returns (r: Result<UserView>)
      requires Valid()
      modifies this
      ensures Valid()
      ensures IsBlank(id) ==> r == Err(BadRequest)
      ensures !IsBlank(id) && id !in old(users) ==> r == Err(NotFound)
      ensures r.Ok? <==> !IsBlank(id) && id in old(users)
      ensures r.Err? ==> users == old(users) && clock == old(clock)
      ensures r.Ok? ==>
        && (var u' := old(users)[id].(status := status, updatedAt := old(clock));
            users == old(users)[id := u'] && r.value == Project(u'))
        && clock == old(clock) + 1
    {
      if IsBlank(id) {
        return Err(BadRequest);
      }
      if id !in users {
        return Err(NotFound);
      }
      var u := users[id].(status := status, updatedAt := clock);
      users := users[id := u];
      clock := clock + 1;
      r := Ok(Project(u));
    }

    /** users.service.ts:316-364 */
    method Disable(id: UserId) returns (r: Result<UserView>)
      requires Valid()
      modifies this
      ensures Valid()
      ensures IsBlank(id) ==> r == Err(BadRequest)
      ensures !IsBlank(id) && id !in old(users) ==> r == Err(NotFound)
      ensures r.Ok? <==> !IsBlank(id) && id in old(users)
      ensures r.Err? ==> users == old(users) && clock == old(clock)
      ensures r.Ok? ==>
        && (var u' := old(users)[id].(status := Disabled, updatedAt := old(clock));
            users == old(users)[id := u'] && r.value == Project(u'))
        && clock == old(clock) + 1
    {
      r := SetStatus(id, Disabled);
    }

    /** users.service.ts:366-414 */
    method Enable(id: UserId) returns (r: Result<UserView>)
      requires Valid()
      modifies this
      ensures Valid()
      ensures IsBlank(id) ==> r == Err(BadRequest)
      ensures !IsBlank(id) && id !in old(users) ==> r == Err(NotFound)
      ensures r.Ok? <==> !IsBlank(id) && id in old(users)
      ensures r.Err? ==> users == old(users) && clock == old(clock)
      ensures r.Ok? ==>
        && (var u' := old(users)[id].(status := Active, updatedAt := old(clock));
            users == old(users)[id := u'] && r.value == Project(u'))
        && clock == old(clock) + 1
    {
      r := SetStatus(id, Active);
    }

    /** users.service.ts:416-440: a hard delete. */
    method Delete(id: UserId) returns (r: Result<()>)
      requires Valid()
      modifies this
      ensures Valid()
      ensures IsBlank(id) ==> r == Err(BadRequest)
      ensures !IsBlank(id) && id !in old(users) ==> r == Err(NotFound)
      ensures r.Ok? <==> !IsBlank(id) && id in old(users)
      ensures r.Err? ==> users == old(users)
      ensures r.Ok? ==> users == old(users) - {id}
      ensures clock == old(clock)
    {
      if IsBlank(id) {
        return Err(BadRequest);
      }
      if id !in users {
        return Err(NotFound);
      }
      users := users - {id};
      r := Ok(());
    }

    /** users.service.ts:442-469: sets the flag whatever its value was. */
    method VerifyEmail(id: UserId) returns (r: Result<UserView>)
      requires Valid()
      modifies this
      ensures Valid()
      ensures IsBlank(id) ==> r == Err(BadRequest)
      ensures !IsBlank(id) && id !in old(users) ==> r == Err(NotFound)
      ensures r.Ok? <==> !IsBlank(id) && id in old(users)
      ensures r.Err? ==> users == old(users) && clock == old(clock)
      ensures r.Ok? ==>
        && (var u' := old(users)[id].(emailVerified := true, updatedAt := old(clock));
            users == old(users)[id := u'] && r.value == Project(u'))
        && clock == old(clock) + 1
    {
      if IsBlank(id) {
        return Err(BadRequest);
      }
      if id !in users {
        return Err(NotFound);
      }
      var u := users[id].(emailVerified := true, updatedAt := clock);
      users := users[id := u];
      clock := clock + 1;
      r := Ok(Project(u));
    }

    /** users.service.ts:471-484: the hasher's verdict; a plaintext always matches its own hash. */
    method VerifyPassword(plain: string, hashed: string) returns (ok: bool)
      requires Valid()
      ensures ok == hasher.matches(plain, hashed)
      ensures (exists salt :: hashed == hasher.hash(plain, SaltRounds, salt)) ==> ok
    {
      ok := hasher.matches(plain, hashed);
    }

    /** users.service.ts:486-512: the whole record, password hash included. */
    method FindByEmailWithPassword(email: string) returns (r: Result<User>)
      requires Valid()
      ensures IsBlank(email) ==> r == Err(BadRequest)
      ensures !IsBlank(email) && !EmailTaken(users, email) ==> r == Err(NotFound)
      ensures !IsBlank(email) && EmailTaken(users, email) ==>
        r.Ok? && r.value.id in users && users[r.value.id] == r.value && r.value.email == email
    {
      if IsBlank(email) {
        return Err(BadRequest);
      }
      var found := LookupByEmail(email);
      if found.None? {
        return Err(NotFound);
      }
      r := Ok(found.value);
    }
  }
}
