/**
 * The row shape the user queries return (users joined with roles) and its
 * conversion into the domain `User`.
 */
module UserModel {
  import opened Kernel

  /** A point in time as stored in `created_at` / `updated_at`. */
  type Timestamp = int

  datatype UserRow = UserRow(
    userId: UserId,
    name: string,
    email: string,
    roleName: string,
    createdAt: Timestamp,
    updatedAt: Timestamp)

  /** A row converts exactly when its role name parses. */
  predicate Convertible(row: UserRow) {
    ParseRole(row.roleName).Some?
  }

  /**
   * `TryFrom<UserRow> for User`: keeps the id, name and email, parses the
   * role name and drops both timestamps.
   */
  function ToUser(row: UserRow): (r: Result<User>)
    ensures r.Ok? <==> Convertible(row)
    ensures r.Ok? ==> r.value.id == row.userId && r.value.name == row.name && r.value.email == row.email
    ensures r.Ok? ==> RoleName(r.value.role) == row.roleName
    ensures r.Err? ==> r.error == ConversionEntityError
  {
    match ParseRole(row.roleName)
    case Some(role) => Ok(User.User(row.userId, row.name, row.email, role))
    case None => Err(ConversionEntityError)
  }

  /** The conversion does not look at either timestamp. */
  lemma ToUserIgnoresTimestamps(row: UserRow, createdAt: Timestamp, updatedAt: Timestamp)
    ensures ToUser(row.(createdAt := createdAt, updatedAt := updatedAt)) == ToUser(row)
  {
  }

  /** Conversion is injective on the fields it keeps: it loses only the timestamps. */
  lemma ToUserKeepsFields(a: UserRow, b: UserRow)
    requires ToUser(a).Ok? && ToUser(b).Ok? && ToUser(a) == ToUser(b)
    ensures a.userId == b.userId && a.name == b.name && a.email == b.email && a.roleName == b.roleName
  {
  }
}
