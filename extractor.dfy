/**
 * The request-boundary authentication step: from the bearer token a request
 * presents to the authenticated principal, or to one of two rejections. The
 * two repositories it consults are given as their lookup functions.
 */
module Extractor {
  import opened Kernel
  import opened AuthModel
  import UserModel
  import opened UserRepository

  /** The principal of one request: the token it presented and the user it resolved to. */
  datatype AuthorizedUser = AuthorizedUser(accessToken: AccessToken, user: User) {
    function Id(): UserId {
      user.id
    }

    predicate IsAdmin() {
      user.role == Role.Admin
    }
  }

  /** The auth repository's token lookup: `None` when the token is unknown or expired. */
  type TokenLookup = AccessToken -> Result<Option<UserId>>

  /** The user repository's `find_current_user`. */
  type UserLookup = UserId -> Result<Option<User>>

  /**
   * `from_request_parts`. `bearer` is the token of the request's
   * `Authorization: Bearer` header, `None` when that header is missing or
   * malformed. A missing header or an unknown token is `UnathorizedError`;
   * a token whose user no longer exists is `UnauthenticatedError`; an error
   * from either lookup is passed on unchanged.
   */
  function FromRequestParts(bearer: Option<string>, fetchUserId: TokenLookup, findCurrentUser: UserLookup): (r: Result<AuthorizedUser>)
    ensures bearer.None? ==> r == Err(UnathorizedError)
    ensures bearer.Some? ==>
      var resolved := fetchUserId(AccessToken(bearer.value));
      && (resolved.Err? ==> r == Err(resolved.error))
      && (resolved == Ok(None) ==> r == Err(UnathorizedError))
      && (resolved.Ok? && resolved.value.Some? ==>
            var found := findCurrentUser(resolved.value.value);
            && (found.Err? ==> r == Err(found.error))
            && (found == Ok(None) ==> r == Err(UnauthenticatedError))
            && (found.Ok? && found.value.Some? ==> r == Ok(AuthorizedUser(AccessToken(bearer.value), found.value.value))))
  {
    match bearer
    case None => Err(UnathorizedError)
    case Some(token) =>
      var accessToken := AccessToken(token);
      match fetchUserId(accessToken)
      case Err(e) => Err(e)
      case Ok(None) => Err(UnathorizedError)
      case Ok(Some(userId)) =>
        match findCurrentUser(userId)
        case Err(e) => Err(e)
        case Ok(None) => Err(UnauthenticatedError)
        case Ok(Some(user)) => Ok(AuthorizedUser(accessToken, user))
  }

  /** Without a bearer token neither repository is consulted: the result is the same whatever they would answer. */
  lemma NoHeaderConsultsNothing(f1: TokenLookup, g1: UserLookup, f2: TokenLookup, g2: UserLookup)
    ensures FromRequestParts(None, f1, g1) == FromRequestParts(None, f2, g2) == Err(UnathorizedError)
  {
  }

  /** A token the auth repository does not resolve is rejected without consulting the user repository. */
  lemma UnresolvedTokenSkipsUsers(token: string, f: TokenLookup, g1: UserLookup, g2: UserLookup)
    requires f(AccessToken(token)) == Ok(None)
    ensures FromRequestParts(Some(token), f, g1) == FromRequestParts(Some(token), f, g2) == Err(UnathorizedError)
  {
  }

  /**
   * A principal is produced only for the presented token and for the record
   * found under the id that token resolved to.
   */
  lemma PrincipalFromLookups(bearer: Option<string>, f: TokenLookup, g: UserLookup)
    requires FromRequestParts(bearer, f, g).Ok?
    ensures bearer.Some?
    ensures FromRequestParts(bearer, f, g).value.accessToken.value == bearer.value
    ensures f(AccessToken(bearer.value)).Ok? && f(AccessToken(bearer.value)).value.Some?
    ensures g(f(AccessToken(bearer.value)).value.value) == Ok(Some(FromRequestParts(bearer, f, g).value.user))
  {
  }

  /**
   * Against a token store and the `users` table: the principal's id is the
   * id the token was stored under, and it is an administrator exactly when
   * the stored role name is that of `Admin`. A token whose user is no longer
   * in the table is `UnauthenticatedError`.
   */
  lemma AuthorizeAgainstStores(token: string, store: map<string, string>, format: IdFormat, users: UserTable)
    ensures var r := FromRequestParts(Some(token), t => ReadUserId(store, format, t), id => FindCurrentUser(users, id));
      && (token !in store ==> r == Err(UnathorizedError))
      && (token in store && format.parse(store[token]).None? ==> r == Err(ConversionEntityError))
      && (token in store && format.parse(store[token]).Some? && format.parse(store[token]).value !in users ==>
            r == Err(UnauthenticatedError))
      && (r.Ok? ==>
            && token in store
            && format.parse(store[token]) == Some(r.value.Id())
            && r.value.Id() in users
            && r.value.accessToken == AccessToken(token)
            && (r.value.IsAdmin() <==> users[r.value.Id()].roleName == RoleName(Role.Admin)))
  {
    var r := FromRequestParts(Some(token), t => ReadUserId(store, format, t), id => FindCurrentUser(users, id));
    if r.Ok? {
      var id := ReadUserId(store, format, AccessToken(token)).value.value;
      assert r.value.user == FindCurrentUser(users, id).value.value;
      ParseRoleName(r.value.user.role);
    }
  }

  /**
   * Logging in as a freshly created user and presenting the token yields a
   * principal with that user's id and the default role, so not an administrator.
   */
  method CreateThenAuthorize(repo: UserRepositoryImpl, event: CreateUser, newId: UserId, salt: Salt, now: UserModel.Timestamp,
                             store: map<string, string>, format: IdFormat, token: string)
    requires repo.Valid()
    requires ParseInvertsDisplay(format)
    modifies repo
  {
    var created := repo.Create(event, newId, salt, now);
    if created.Ok? {
      var users := repo.users;
      assert FindCurrentUser(users, newId) == Ok(Some(created.value));
      var issued := Store(store, format, CreateToken(newId, token));
      IssuedTokenResolves(store, format, CreateToken(newId, token));
      var principal := FromRequestParts(Some(token), t => ReadUserId(issued, format, t), id => FindCurrentUser(users, id));
      assert principal.Ok?;
      assert principal.value.Id() == newId;
      assert principal.value.user.role == Role.User;
      assert !principal.value.IsAdmin();
    }
  }

  /** A token that outlives its user's row is rejected as unauthenticated. */
  method DeleteThenAuthorize(repo: UserRepositoryImpl, id: UserId, store: map<string, string>, format: IdFormat, token: string)
    requires repo.Valid()
    requires ParseInvertsDisplay(format)
    modifies repo
  {
    var issued := Store(store, format, CreateToken(id, token));
    IssuedTokenResolves(store, format, CreateToken(id, token));
    var deleted := repo.Delete(DeleteUser(id));
    var users := repo.users;
    var principal := FromRequestParts(Some(token), t => ReadUserId(issued, format, t), uid => FindCurrentUser(users, uid));
    assert principal == Err(UnauthenticatedError);
  }
}
