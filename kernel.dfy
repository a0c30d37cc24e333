/**
 * Shared domain types that the authentication core passes around: user
 * identities, roles, users, access tokens and the application error type.
 * They belong to the `kernel` and `shared` crates, whose code is not part of
 * this model; only what the core relies on is stated here.
 */
module Kernel {

  datatype Option<+T> = None | Some(value: T)

  /** The application error kinds the core raises or propagates (messages are not modelled). */
  datatype AppError =
    | SpecificOperationError   // any failure reported by the relational store
    | NoRowsAffectedError      // an insert that wrote no row
    | EntityNotFound           // an update or delete that matched no row
    | UnauthenticatedError     // wrong password, or a token whose user has vanished
    | UnathorizedError         // missing, malformed or unknown bearer token (spelled as in the source)
    | ConversionEntityError    // a stored string that does not parse back into a domain value
    | BcryptError              // a failure inside the password hashing library

  datatype Result<+T> = Ok(value: T) | Err(error: AppError)

  /** A user identity: a UUID, kept as its 128 bits. */
  datatype UserId = UserId(uuid: bv128)

  /**
   * The textual form of a `UserId` (its display and its parse). Both live
   * in the uuid library and are taken as given; the only fact used about
   * them is `ParseInvertsDisplay`.
   */
  datatype IdFormat = IdFormat(display: UserId -> string, parse: string -> Option<UserId>)

  ghost predicate ParseInvertsDisplay(f: IdFormat) {
    forall id :: f.parse(f.display(id)) == Some(id)
  }

  datatype Role = User | Admin

  /** The name under which a role is stored in the `roles` table. */
  function RoleName(role: Role): string {
    match role
    case User => "User"
    case Admin => "Admin"
  }

  /** Parses a stored role name; `None` is the parse error. */
  function ParseRole(name: string): (r: Option<Role>)
    ensures r.Some? <==> name == "User" || name == "Admin"
    ensures r.Some? ==> RoleName(r.value) == name
  {
    if name == "User" then Some(Role.User)
    else if name == "Admin" then Some(Role.Admin)
    else None
  }

  /** Storing a role by its name and parsing the name back gives the role. */
  lemma ParseRoleName(role: Role)
    ensures ParseRole(RoleName(role)) == Some(role)
  {
  }

  datatype User = User(id: UserId, name: string, email: string, role: Role)

  datatype AccessToken = AccessToken(value: string)
}
