/**
 * The key and value newtypes under which a live access token is kept in the
 * key-value token store: the key wraps the token string, the value wraps the
 * user id and is stored as that id's text.
 */
module AuthModel {
  import opened Kernel

  /** The login event that asks for a token to be stored. */
  datatype CreateToken = CreateToken(userId: UserId, accessToken: string)

  datatype AuthorizationKey = AuthorizationKey(token: string) {
    /** The store key: the token string itself. */
    function Inner(): string {
      token
    }
  }

  datatype AuthorizedUserId = AuthorizedUserId(id: UserId) {
    /** The stored value: the id's text. */
    function Inner(format: IdFormat): string {
      format.display(id)
    }

    function IntoInner(): UserId {
      id
    }
  }

  /** Splits a token-creation event into the key and the value to store. */
  function FromCreateToken(event: CreateToken): (kv: (AuthorizationKey, AuthorizedUserId))
    ensures kv.0.Inner() == event.accessToken
    ensures kv.1.IntoInner() == event.userId
  {
    (AuthorizationKey(event.accessToken), AuthorizedUserId(event.userId))
  }

  /** `From<AccessToken> for AuthorizationKey`. */
  function KeyFromToken(token: AccessToken): (key: AuthorizationKey)
    ensures key.Inner() == token.value
  {
    AuthorizationKey(token.value)
  }

  /** `From<AuthorizationKey> for AccessToken`. */
  function TokenFromKey(key: AuthorizationKey): (token: AccessToken)
    ensures token.value == key.Inner()
  {
    AccessToken(key.token)
  }

  /** Converting a token to a key and back is the identity, in both directions. */
  lemma TokenKeyRoundTrip(token: AccessToken, key: AuthorizationKey)
    ensures TokenFromKey(KeyFromToken(token)) == token
    ensures KeyFromToken(TokenFromKey(key)) == key
  {
  }

  /** `From<&AccessToken> for AuthorizationKey`: copies the string, so it agrees with the owned conversion. */
  function KeyFromTokenRef(token: AccessToken): (key: AuthorizationKey)
    ensures key == KeyFromToken(token)
  {
    AuthorizationKey(token.value[..])
  }

  /** `TryFrom<String> for AuthorizedUserId`: parses the stored text back into an id. */
  function TryFromString(format: IdFormat, value: string): (r: Result<AuthorizedUserId>)
    ensures r.Ok? <==> format.parse(value).Some?
    ensures r.Ok? ==> r.value.IntoInner() == format.parse(value).value
    ensures r.Err? ==> r.error == ConversionEntityError
  {
    match format.parse(value)
    case Some(id) => Ok(AuthorizedUserId(id))
    case None => Err(ConversionEntityError)
  }

  /** A stored value reads back as itself, given that parsing inverts display. */
  lemma StoredValueReadsBack(format: IdFormat, v: AuthorizedUserId)
    requires ParseInvertsDisplay(format)
    ensures TryFromString(format, v.Inner(format)) == Ok(v)
  {
  }

  /**
   * How the shown conversions read a token back out of a key-value store
   * `store` (store key to stored text): absent key is `None`, stored text
   * that does not parse is a conversion error.
   */
  function ReadUserId(store: map<string, string>, format: IdFormat, token: AccessToken): (r: Result<Option<UserId>>)
    ensures token.value !in store ==> r == Ok(None)
    ensures r.Ok? && r.value.Some? <==> token.value in store && format.parse(store[token.value]).Some?
    ensures r.Ok? && r.value.Some? ==> r.value.value == format.parse(store[token.value]).value
    ensures r.Err? ==> r.error == ConversionEntityError
  {
    var key := KeyFromTokenRef(token);
    if key.Inner() in store then
      match TryFromString(format, store[key.Inner()])
      case Ok(v) => Ok(Some(v.IntoInner()))
      case Err(e) => Err(e)
    else
      Ok(None)
  }

  /** The store after writing the key and value a token-creation event yields. */
  function Store(store: map<string, string>, format: IdFormat, event: CreateToken): (s: map<string, string>)
    ensures s.Keys == store.Keys + {event.accessToken}
  {
    var (key, value) := FromCreateToken(event);
    store[key.Inner() := value.Inner(format)]
  }

  /** A token written from a creation event resolves to that event's user id. */
  lemma IssuedTokenResolves(store: map<string, string>, format: IdFormat, event: CreateToken)
    requires ParseInvertsDisplay(format)
    ensures ReadUserId(Store(store, format, event), format, AccessToken(event.accessToken)) == Ok(Some(event.userId))
  {
    var (key, value) := FromCreateToken(event);
    StoredValueReadsBack(format, value);
  }

  /** Writing one token leaves how every other token resolves unchanged. */
  lemma StoreKeepsOtherTokens(store: map<string, string>, format: IdFormat, event: CreateToken, other: AccessToken)
    requires other.value != event.accessToken
    ensures ReadUserId(Store(store, format, event), format, other) == ReadUserId(store, format, other)
  {
  }
}
