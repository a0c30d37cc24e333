/**
 * The user repository over the relational store. The `users` table (joined
 * with `roles`) is a map from user id to the stored record; the `roles`
 * table is the set of role names it holds. Password hashing is the bcrypt
 * library, taken as a pair of functions.
 */
module UserRepository {
  import opened Kernel
  import opened UserModel

  /** What one row of `users` holds, with the role already resolved to its name through `roles`. */
  datatype UserRecord = UserRecord(
    name: string,
    email: string,
    roleName: string,
    passwordHash: string,
    createdAt: Timestamp,
    updatedAt: Timestamp)

  type UserTable = map<UserId, UserRecord>

  /** The random salt bcrypt draws for each hash. */
  type Salt = seq<bv8>

  /**
   * The bcrypt library at its default cost: `hash` is `None` when hashing
   * fails, `verify` is `None` when the stored hash is malformed.
   */
  datatype Bcrypt = Bcrypt(hash: (string, Salt) -> Option<string>, verify: (string, string) -> Option<bool>)

  /** The one assumption made about bcrypt: a password verifies against its own hash. */
  ghost predicate VerifiesOwnHash(b: Bcrypt) {
    forall p, s :: b.hash(p, s).Some? ==> b.verify(p, b.hash(p, s).value) == Some(true)
  }

  datatype CreateUser = CreateUser(name: string, email: string, password: string)
  datatype UpdateUserPassword = UpdateUserPassword(userId: UserId, currentPassword: string, newPassword: string)
  datatype UpdateUserRole = UpdateUserRole(userId: UserId, role: Role)
  datatype DeleteUser = DeleteUser(userId: UserId)

  /** `hash_password`: a library failure becomes the application's bcrypt error. */
  function HashPassword(b: Bcrypt, password: string, salt: Salt): (r: Result<string>)
    ensures r.Ok? <==> b.hash(password, salt).Some?
    ensures r.Ok? ==> r.value == b.hash(password, salt).value
    ensures r.Err? ==> r.error == BcryptError
  {
    match b.hash(password, salt)
    case Some(h) => Ok(h)
    case None => Err(BcryptError)
  }

  /** `verify_password`: succeeds exactly when bcrypt accepts the password; a mismatch is `UnauthenticatedError`. */
  function VerifyPassword(b: Bcrypt, password: string, hash: string): (r: Result<()>)
    ensures r.Ok? <==> b.verify(password, hash) == Some(true)
    ensures b.verify(password, hash) == Some(false) ==> r == Err(UnauthenticatedError)
    ensures b.verify(password, hash) == None ==> r == Err(BcryptError)
  {
    match b.verify(password, hash)
    case Some(valid) => if valid then Ok(()) else Err(UnauthenticatedError)
    case None => Err(BcryptError)
  }

  /** A password that was hashed successfully verifies against that hash. */
  lemma HashThenVerify(b: Bcrypt, password: string, salt: Salt)
    requires VerifiesOwnHash(b)
    requires HashPassword(b, password, salt).Ok?
    ensures VerifyPassword(b, password, HashPassword(b, password, salt).value) == Ok(())
  {
  }

  /** The row the user queries yield for a stored record. */
  function RowOf(id: UserId, rec: UserRecord): UserRow {
    UserRow(id, rec.name, rec.email, rec.roleName, rec.createdAt, rec.updatedAt)
  }

  /** `find_current_user`: an unknown id is `None`; a known one is converted, and a failed conversion is the error. */
  function FindCurrentUser(users: UserTable, id: UserId): (r: Result<Option<User>>)
    ensures id !in users ==> r == Ok(None)
    ensures id in users ==> (r.Ok? <==> ParseRole(users[id].roleName).Some?)
    ensures r.Ok? && r.value.Some? ==>
      id in users &&
      r.value.value == User.User(id, users[id].name, users[id].email, ParseRole(users[id].roleName).value)
    ensures r.Err? ==> r.error == ConversionEntityError
  {
    if id in users then
      match ToUser(RowOf(id, users[id]))
      case Ok(u) => Ok(Some(u))
      case Err(e) => Err(e)
    else
      Ok(None)
  }

  /** `find_all`'s pipeline over the rows the query returns: every row that converts, in order; the rest are dropped. */
  function FindAll(rows: seq<UserRow>): (users: seq<User>)
    ensures |users| <= |rows|
  {
    if rows == [] then []
    else
      match ToUser(rows[0])
      case Ok(u) => [u] + FindAll(rows[1..])
      case Err(_) => FindAll(rows[1..])
  }

  /** One row contributes its user when it converts and nothing when it does not. */
  lemma FindAllOne(row: UserRow)
    ensures FindAll([row]) == if Convertible(row) then [ToUser(row).value] else []
  {
  }

  /** The pipeline works row by row: listing two runs of rows lists each run, in the same order. */
  lemma {:induction false} FindAllAppend(a: seq<UserRow>, b: seq<UserRow>)
    ensures FindAll(a + b) == FindAll(a) + FindAll(b)
  {
    if a == [] {
      assert a + b == b;
    } else {
      assert (a + b)[1..] == a[1..] + b;
      FindAllAppend(a[1..], b);
    }
  }

  /** A user is listed exactly when some row converts to it. */
  lemma {:induction false} FindAllMembers(rows: seq<UserRow>, u: User)
    ensures u in FindAll(rows) <==> exists i :: 0 <= i < |rows| && ToUser(rows[i]) == Ok(u)
  {
    if rows != [] {
      FindAllMembers(rows[1..], u);
      if exists i :: 0 <= i < |rows[1..]| && ToUser(rows[1..][i]) == Ok(u) {
        var i :| 0 <= i < |rows[1..]| && ToUser(rows[1..][i]) == Ok(u);
        assert ToUser(rows[i + 1]) == Ok(u);
      }
      if exists i :: 0 <= i < |rows| && ToUser(rows[i]) == Ok(u) {
        var i :| 0 <= i < |rows| && ToUser(rows[i]) == Ok(u);
        if i > 0 {
          assert ToUser(rows[1..][i - 1]) == Ok(u);
        }
      }
    }
  }

  /** When every row converts nothing is dropped. */
  lemma {:induction false} FindAllKeepsConvertible(rows: seq<UserRow>)
    requires forall i :: 0 <= i < |rows| ==> Convertible(rows[i])
    ensures |FindAll(rows)| == |rows|
  {
    if rows != [] {
      assert Convertible(rows[0]);
      FindAllKeepsConvertible(rows[1..]);
    }
  }

  /** Every row is the table's row for its id. */
  ghost predicate RowsOf(users: UserTable, rows: seq<UserRow>) {
    forall i :: 0 <= i < |rows| ==> rows[i].userId in users && rows[i] == RowOf(rows[i].userId, users[rows[i].userId])
  }

  /** Rows in `created_at`-descending order. */
  ghost predicate NewestFirst(rows: seq<UserRow>) {
    forall i, j :: 0 <= i < j < |rows| ==> rows[i].createdAt >= rows[j].createdAt
  }

  /** No user id occurs in two rows. */
  ghost predicate DistinctIds(rows: seq<UserRow>) {
    forall i, j :: 0 <= i < j < |rows| ==> rows[i].userId != rows[j].userId
  }

  /** What the `find_all` query returns: every row of the table once, newest first. */
  ghost predicate ListsTable(users: UserTable, rows: seq<UserRow>) {
    && RowsOf(users, rows)
    && DistinctIds(rows)
    && NewestFirst(rows)
    && forall id :: id in users ==> exists i :: 0 <= i < |rows| && rows[i].userId == id
  }

  /** Over rows with distinct ids, no user is listed twice. */
  lemma {:induction false} FindAllListsOnce(rows: seq<UserRow>)
    requires DistinctIds(rows)
    ensures forall i, j :: 0 <= i < j < |FindAll(rows)| ==> FindAll(rows)[i].id != FindAll(rows)[j].id
  {
    if rows != [] {
      var rest := rows[1..];
      FindAllListsOnce(rest);
      if Convertible(rows[0]) {
        var head := ToUser(rows[0]).value;
        assert FindAll(rows) == [head] + FindAll(rest);
        forall j | 0 < j < |FindAll(rows)|
          ensures FindAll(rows)[j].id != head.id
        {
          var u := FindAll(rows)[j];
          assert u in FindAll(rest);
          FindAllMembers(rest, u);
          var k :| 0 <= k < |rest| && ToUser(rest[k]) == Ok(u);
          assert rest[k] == rows[k + 1];
        }
      }
    }
  }

  /** Over a listing of the table, `find_all` gives exactly the users `find_current_user` finds. */
  lemma FindAllOfTable(users: UserTable, rows: seq<UserRow>, u: User)
    requires ListsTable(users, rows)
    ensures u in FindAll(rows) <==> u.id in users && FindCurrentUser(users, u.id) == Ok(Some(u))
  {
    FindAllMembers(rows, u);
    if u.id in users && FindCurrentUser(users, u.id) == Ok(Some(u)) {
      var i :| 0 <= i < |rows| && rows[i].userId == u.id;
      assert ToUser(rows[i]) == Ok(u);
    }
  }

  /** Over rows taken from the table newest first, the listed users come out newest first. */
  lemma {:induction false} FindAllNewestFirst(users: UserTable, rows: seq<UserRow>)
    requires RowsOf(users, rows) && NewestFirst(rows)
    ensures forall u :: u in FindAll(rows) ==> u.id in users
    ensures forall i, j :: 0 <= i < j < |FindAll(rows)| ==>
      users[FindAll(rows)[i].id].createdAt >= users[FindAll(rows)[j].id].createdAt
  {
    if rows != [] {
      var rest := rows[1..];
      FindAllNewestFirst(users, rest);
      forall u | u in FindAll(rest)
        ensures users[u.id].createdAt <= rows[0].createdAt
      {
        FindAllMembers(rest, u);
        var k :| 0 <= k < |rest| && ToUser(rest[k]) == Ok(u);
        assert rest[k] == rows[k + 1];
      }
      if Convertible(rows[0]) {
        var head := ToUser(rows[0]).value;
        assert FindAll(rows) == [head] + FindAll(rest);
        forall j | 0 < j < |FindAll(rows)|
          ensures users[FindAll(rows)[j].id].createdAt <= users[head.id].createdAt
        {
          assert FindAll(rows)[j] in FindAll(rest);
        }
      }
    }
  }

  /** No two rows hold the same email (the store's uniqueness constraint). */
  ghost predicate EmailsUnique(users: UserTable) {
    forall a, b :: a in users && b in users && users[a].email == users[b].email ==> a == b
  }

  predicate EmailTaken(users: UserTable, email: string) {
    exists id :: id in users && users[id].email == email
  }

  /** `UserRepositoryImpl`: the repository over the store's `users` and `roles` tables. */
  class UserRepositoryImpl {
    var users: UserTable
    const roles: set<string>
    const bcrypt: Bcrypt

    /** The store's constraints: every row's role is in `roles`, and emails are unique. */
    ghost predicate Valid()
      reads this
    {
      && (forall id :: id in users ==> users[id].roleName in roles)
      && EmailsUnique(users)
    }

    constructor (users: UserTable, roles: set<string>, bcrypt: Bcrypt)
      requires forall id :: id in users ==> users[id].roleName in roles
      requires EmailsUnique(users)
      ensures Valid()
      ensures this.users == users && this.roles == roles && this.bcrypt == bcrypt
    {
      this.users := users;
      this.roles := roles;
      this.bcrypt := bcrypt;
    }

    /**
     * `create`: hashes the password, then inserts a row with the default
     * role under the freshly generated id `newId`. The insert selects the
     * role from `roles`, so it writes no row when that role is missing; it is
     * refused by the store when the id or the email is already taken.
     */
    method Create(event: CreateUser, newId: UserId, salt: Salt, now: Timestamp) returns (r: Result<User>)
      requires Valid()
      modifies this
      ensures Valid()
      ensures r.Ok? <==>
        && bcrypt.hash(event.password, salt).Some?
        && RoleName(Role.User) in roles
        && newId !in old(users)
        && !EmailTaken(old(users), event.email)
      ensures bcrypt.hash(event.password, salt).None? ==> r == Err(BcryptError)
      ensures bcrypt.hash(event.password, salt).Some? && RoleName(Role.User) !in roles ==> r == Err(NoRowsAffectedError)
      ensures bcrypt.hash(event.password, salt).Some? && RoleName(Role.User) in roles && r.Err? ==> r.error == SpecificOperationError
      ensures r.Err? ==> users == old(users)
      ensures r.Ok? ==> r.value == User.User(newId, event.name, event.email, Role.User)
      ensures r.Ok? ==> users == old(users)[newId := UserRecord(event.name, event.email, RoleName(Role.User),
                                                                 bcrypt.hash(event.password, salt).value, now, now)]
      ensures r.Ok? ==> |users| == |old(users)| + 1
      ensures r.Ok? ==> FindCurrentUser(users, newId) == Ok(Some(r.value))
      ensures r.Ok? && VerifiesOwnHash(bcrypt) ==> VerifyPassword(bcrypt, event.password, users[newId].passwordHash) == Ok(())
    {
      var hashed := HashPassword(bcrypt, event.password, salt);
      if hashed.Err? {
        return Err(hashed.error);
      }
      var role := Role.User;
      if RoleName(role) !in roles {
        // the insert's `select ... from roles` found no row: nothing was written
        return Err(NoRowsAffectedError);
      }
      if newId in users || EmailTaken(users, event.email) {
        // primary-key or unique-email violation reported by the store
        return Err(SpecificOperationError);
      }
      users := users[newId := UserRecord(event.name, event.email, RoleName(role), hashed.value, now, now)];
      ParseRoleName(role);
      if VerifiesOwnHash(bcrypt) {
        HashThenVerify(bcrypt, event.password, salt);
      }
      r := Ok(User.User(newId, event.name, event.email, role));
    }

    /**
     * `update_password`: reads the stored hash (an unknown id is a store
     * error from the single-row fetch), checks the current password, hashes
     * the new one and writes it, all in one transaction.
     */
    method UpdatePassword(event: UpdateUserPassword, salt: Salt) returns (r: Result<()>)
      requires Valid()
      modifies this
      ensures Valid()
      ensures event.userId !in old(users) ==> r == Err(SpecificOperationError)
      ensures event.userId in old(users) ==>
        (r.Ok? <==> VerifyPassword(bcrypt, event.currentPassword, old(users)[event.userId].passwordHash).Ok?
                    && bcrypt.hash(event.newPassword, salt).Some?)
      ensures event.userId in old(users) ==>
        var check := VerifyPassword(bcrypt, event.currentPassword, old(users)[event.userId].passwordHash);
        check.Err? ==> r == Err(check.error)
      ensures (&& event.userId in old(users)
               && VerifyPassword(bcrypt, event.currentPassword, old(users)[event.userId].passwordHash).Ok?
               && bcrypt.hash(event.newPassword, salt).None?) ==> r == Err(BcryptError)
      ensures r.Err? ==> users == old(users)
      ensures r.Ok? ==> event.userId in old(users)
      ensures r.Ok? ==>
        users == old(users)[event.userId := old(users)[event.userId].(passwordHash := bcrypt.hash(event.newPassword, salt).value)]
      ensures r.Ok? && VerifiesOwnHash(bcrypt) ==>
        VerifyPassword(bcrypt, event.newPassword, users[event.userId].passwordHash) == Ok(())
    {
      if event.userId !in users {
        return Err(SpecificOperationError);
      }
      var original := users[event.userId].passwordHash;
      var check := VerifyPassword(bcrypt, event.currentPassword, original);
      if check.Err? {
        return Err(check.error);
      }
      var hashed := HashPassword(bcrypt, event.newPassword, salt);
      if hashed.Err? {
        return Err(hashed.error);
      }
      users := users[event.userId := users[event.userId].(passwordHash := hashed.value)];
      if VerifiesOwnHash(bcrypt) {
        HashThenVerify(bcrypt, event.newPassword, salt);
      }
      r := Ok(());
    }

    /**
     * `update_role`: sets the row's role to the one named in `roles`. No
     * matching row is `EntityNotFound`; a role name missing from `roles`
     * leaves the role reference null, which the store refuses.
     */
    method UpdateRole(event: UpdateUserRole) returns (r: Result<()>)
      requires Valid()
      modifies this
      ensures Valid()
      ensures event.userId !in old(users) ==> r == Err(EntityNotFound)
      ensures event.userId in old(users) && RoleName(event.role) !in roles ==> r == Err(SpecificOperationError)
      ensures r.Ok? <==> event.userId in old(users) && RoleName(event.role) in roles
      ensures r.Err? ==> users == old(users)
      ensures r.Ok? ==> users == old(users)[event.userId := old(users)[event.userId].(roleName := RoleName(event.role))]
      ensures r.Ok? ==> FindCurrentUser(users, event.userId).Ok?
                        && FindCurrentUser(users, event.userId).value.Some?
                        && FindCurrentUser(users, event.userId).value.value.role == event.role
    {
      if event.userId !in users {
        return Err(EntityNotFound);
      }
      if RoleName(event.role) !in roles {
        return Err(SpecificOperationError);
      }
      users := users[event.userId := users[event.userId].(roleName := RoleName(event.role))];
      ParseRoleName(event.role);
      r := Ok(());
    }

    /** `delete`: removes the row; no matching row is `EntityNotFound`. */
    method Delete(event: DeleteUser) returns (r: Result<()>)
      requires Valid()
      modifies this
      ensures Valid()
      ensures r.Ok? <==> event.userId in old(users)
      ensures r.Err? ==> r.error == EntityNotFound && users == old(users)
      ensures r.Ok? ==> users == old(users) - {event.userId}
      ensures FindCurrentUser(users, event.userId) == Ok(None)
    {
      if event.userId !in users {
        return Err(EntityNotFound);
      }
      users := users - {event.userId};
      r := Ok(());
    }
  }

  /** Deleting the same user twice: the first call succeeds, the second finds nothing. */
  method DeleteTwice(repo: UserRepositoryImpl, id: UserId)
    requires repo.Valid() && id in repo.users
    modifies repo
  {
    var first := repo.Delete(DeleteUser(id));
    assert first.Ok?;
    var second := repo.Delete(DeleteUser(id));
    assert second == Err(EntityNotFound);
  }
}
