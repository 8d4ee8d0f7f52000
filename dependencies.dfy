/**
 * `get_current_user` (app/dependencies.py): the bearer token of a request
 * resolved to an active user, or the error the request fails with.
 */
module Dependencies {
  import opened Wrappers
  import opened Models
  import opened Errors
  import opened Security
  import opened Tables
  import opened Stores
  import opened Crud

  /** The one exception every rejected token raises (with a `WWW-Authenticate: Bearer` header). */
  const CredentialsError := HttpException(401, "Could not validate credentials")

  /** What `OAuth2PasswordBearer` raises when the request carries no bearer token at all. */
  const NotAuthenticated := HttpException(401, "Not authenticated")

  predicate IsActiveUser(user: Row)
  {
    IsActive in user.rec && user.rec[IsActive] == Bool(true)
  }

  /**
   * `get_current_user(token, db)`; `token` is None when the request has no
   * bearer token. A subject that is not an integer makes `int()` raise a
   * ValueError, which no handler turns into a 401.
   */
  function CurrentUser(s: Store, token: Option<Token>, settings: Settings, now: int): (r: Result<Row, ApiError>)
    ensures token.None? ==> r == Err(NotAuthenticated)
    ensures token.Some? && DecodeToken(token.value, settings, now).Err? ==> r == Err(CredentialsError)
    ensures r.Ok? ==>
      && token.Some?
      && DecodeToken(token.value, settings, now).Ok?
      && ParseInt(DecodeToken(token.value, settings, now).value) == Some(r.value.id)
      && r.value in s.users
      && IsActiveUser(r.value)
    ensures r.Err? ==> r.error in {NotAuthenticated, CredentialsError, Unhandled(ValueError)}
    ensures r == Err(Unhandled(ValueError)) <==>
              token.Some? && DecodeToken(token.value, settings, now).Ok?
              && ParseInt(DecodeToken(token.value, settings, now).value).None?
  {
    match token
    case None => Err(NotAuthenticated)
    case Some(t) =>
      match DecodeToken(t, settings, now)
      case Err(_) => Err(CredentialsError)
      case Ok(sub) =>
        match ParseInt(sub)
        case None => Err(Unhandled(ValueError))
        case Some(id) =>
          match Get(s, Users, id)
          case None => Err(CredentialsError)
          case Some(user) => if IsActiveUser(user) then Ok(user) else Err(CredentialsError)
  }

  /** A subject that decodes to an integer resolves exactly when that key is an active user. */
  lemma ResolvesIffActiveUser(s: Store, t: Token, settings: Settings, now: int, id: int)
    requires DecodeToken(t, settings, now).Ok?
    requires ParseInt(DecodeToken(t, settings, now).value) == Some(id)
    ensures CurrentUser(s, Some(t), settings, now).Ok? <==>
              exists user :: user in s.users && user.id == id && IsActiveUser(user) && Find(s.users, id) == Some(user)
    ensures CurrentUser(s, Some(t), settings, now).Err? ==> CurrentUser(s, Some(t), settings, now) == Err(CredentialsError)
  {
    var r := CurrentUser(s, Some(t), settings, now);
    if r.Ok? {
      assert r.value in s.users && r.value.id == id && IsActiveUser(r.value) && Find(s.users, id) == Some(r.value);
    }
  }

  /**
   * A token issued for an active user resolves to that very user until it
   * expires, and is rejected with the credentials error afterwards.
   */
  lemma IssuedTokenResolves(s: Store, user: Row, expiresDelta: Option<int>, settings: Settings, issuedAt: int, now: int)
    requires ValidStore(s)
    requires user in s.users && IsActiveUser(user)
    ensures var t := CreateAccessToken(user.id, expiresDelta, settings, issuedAt);
      CurrentUser(s, Some(t), settings, now)
        == if now <= issuedAt + Lifetime(expiresDelta, settings) then Ok(user) else Err(CredentialsError)
  {
    TokenRoundTrip(user.id, expiresDelta, settings, issuedAt, now);
    ParseIntRoundTrip(user.id);
    assert ValidTable(Users, s.Tab(Users));
    FindUnique(s.users, user);
  }

  /** A token outlives neither the deactivation nor the deletion of its user. */
  lemma InactiveOrDeletedUserRejected(s: Store, id: int, expiresDelta: Option<int>, settings: Settings, issuedAt: int, now: int)
    requires Get(s, Users, id).None? || !IsActiveUser(Get(s, Users, id).value)
    ensures CurrentUser(s, Some(CreateAccessToken(id, expiresDelta, settings, issuedAt)), settings, now)
              == Err(CredentialsError)
  {
    TokenRoundTrip(id, expiresDelta, settings, issuedAt, now);
    ParseIntRoundTrip(id);
  }

  /** After a user is deleted, the tokens issued for it are rejected. */
  lemma DeletedUserRejected(s: Store, id: int, policy: RunLinkPolicy, expiresDelta: Option<int>, settings: Settings, issuedAt: int, now: int)
    ensures var t := CreateAccessToken(id, expiresDelta, settings, issuedAt);
      CurrentUser(Cascade.Deleted(s, Users, id, policy), Some(t), settings, now) == Err(CredentialsError)
  {
    var r := Cascade.Deleted(s, Users, id, policy);
    assert Get(r, Users, id).None?;
    InactiveOrDeletedUserRejected(r, id, expiresDelta, settings, issuedAt, now);
  }
}
