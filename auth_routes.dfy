/**
 * The `/auth` router (app/routers/auth.py): registration, login with the
 * OAuth2 password form, and the current user's own view.
 */
module AuthRoutes {
  import opened Wrappers
  import opened Models
  import opened Errors
  import opened Security
  import opened Tables
  import opened Stores
  import opened Schemas
  import opened Crud
  import opened UserCrud
  import opened Dependencies

  const EmailTaken := HttpException(400, "Email already registered")
  const BadLogin := HttpException(401, "Incorrect email or password")

  /** The `Token` response schema: the JWT and its type. */
  datatype TokenResponse = TokenResponse(accessToken: Token, tokenType: string)

  /**
   * `register` as a function of the store: a taken email is refused before
   * anything is written; otherwise the user is created and returned through
   * its read view.
   */
  function RegisterOutcome(s: Store, body: UserCreate, salt: nat, now: int): (o: Outcome<UserRead>)
    ensures GetByEmail(s, body.email).Some? ==> o == Outcome(s, Err(EmailTaken))
    ensures GetByEmail(s, body.email).None? ==>
      && o.result.Ok?
      && |o.store.users| == |s.users| + 1
      && o.store.users[..|s.users|] == s.users
      && o.store.users[|s.users|].id == o.result.value.id == NewId(s.users)
      && o.store.suites == s.suites && o.store.cases == s.cases
      && o.store.runs == s.runs && o.store.results == s.results
      && Email in o.result.value.fields && o.result.value.fields[Email] == Str(body.email)
      && IsActive in o.result.value.fields && o.result.value.fields[IsActive] == Bool(true)
      && HashedPassword !in o.result.value.fields
  {
    if GetByEmail(s, body.email).Some? then Outcome(s, Err(EmailTaken))
    else
      var c := CreateOutcome(s, Users, NewUserFields(body, salt), map[], now);
      CreateWithNewEmail(s, body, salt, now);
      match c.result
      case Err(e) => Outcome(c.store, Err(e))
      case Ok(user) => Outcome(c.store, Ok(ToUserRead(user.id, user.rec)))
  }

  /** `POST /auth/register`. */
  method Register(db: Session, body: UserCreate, salt: nat, now: int) returns (r: Result<UserRead, ApiError>)
    requires db.Valid()
    modifies db
    ensures db.Valid()
    ensures Outcome(db.store, r) == RegisterOutcome(old(db.store), body, salt, now)
  {
    if GetByEmail(db.store, body.email).Some? {
      return Err(EmailTaken);
    }
    var created := UserCrud.Create(db, body, map[], salt, now);
    CreateWithNewEmail(old(db.store), body, salt, now);
    match created
    case Err(e) => r := Err(e);
    case Ok(user) => r := Ok(ToUserRead(user.id, user.rec));
  }

  /** Registering the same email twice: the second attempt is refused and writes nothing. */
  lemma RegisterTwiceRefused(s: Store, body: UserCreate, other: UserCreate, salt: nat, salt2: nat, now: int, later: int)
    requires GetByEmail(s, body.email).None?
    requires other.email == body.email
    ensures var o := RegisterOutcome(s, body, salt, now);
      RegisterOutcome(o.store, other, salt2, later) == Outcome(o.store, Err(EmailTaken))
  {
    var c := CreateOutcome(s, Users, NewUserFields(body, salt), map[], now);
    CreateWithNewEmail(s, body, salt, now);
    var row := c.result.value;
    assert RegisterOutcome(s, body, salt, now).store == c.store;
    assert row in c.store.users && Matches(row, Email, Str(body.email));
  }

  /**
   * `POST /auth/login`: the form's `username` is the email. Whether the
   * account is active is not looked at.
   */
  function Login(s: Store, username: string, password: string, settings: Settings, now: int): (r: Result<TokenResponse, ApiError>)
    ensures r.Err? <==> Authenticate(s, username, password).None?
    ensures r.Err? ==> r.error == BadLogin
    ensures r.Ok? ==> r.value.tokenType == "bearer"
    ensures r.Ok? && settings.accessTokenExpireMinutes >= 0 ==>
              DecodeToken(r.value.accessToken, settings, now) == Ok(IntToString(Authenticate(s, username, password).value.id))
  {
    match Authenticate(s, username, password)
    case None => Err(BadLogin)
    case Some(user) =>
      TokenRoundTrip(user.id, None, settings, now, now);
      Ok(TokenResponse(CreateAccessToken(user.id, None, settings, now), "bearer"))
  }

  /**
   * An unknown email and a wrong password cannot be told apart: both give
   * the same 401.
   */
  lemma LoginFailuresAlike(s: Store, unknown: string, email: string, wrong: string, p: string, settings: Settings, now: int)
    requires GetByEmail(s, unknown).None?
    requires GetByEmail(s, email).Some? && !PasswordMatches(GetByEmail(s, email).value, wrong)
    ensures Login(s, unknown, p, settings, now) == Login(s, email, wrong, settings, now) == Err(BadLogin)
  {
  }

  /** A newly registered user can log in with the password it registered with, and with no other. */
  lemma RegisteredUserLogsIn(s: Store, body: UserCreate, salt: nat, now: int, password: string, settings: Settings, later: int)
    requires GetByEmail(s, body.email).None?
    ensures var o := RegisterOutcome(s, body, salt, now);
      Login(o.store, body.email, password, settings, later).Ok? <==> password == body.password
  {
    LoginAfterCreate(s, body, salt, now);
    CreateWithNewEmail(s, body, salt, now);
  }

  /** `GET /auth/me`: the resolved current user, through its read view. */
  function Me(s: Store, token: Option<Token>, settings: Settings, now: int): (r: Result<UserRead, ApiError>)
    ensures r.Ok? <==> CurrentUser(s, token, settings, now).Ok?
    ensures r.Ok? ==> HashedPassword !in r.value.fields
    ensures r.Ok? ==> r.value.id == CurrentUser(s, token, settings, now).value.id
    ensures r.Err? ==> r.error == CurrentUser(s, token, settings, now).error
  {
    match CurrentUser(s, token, settings, now)
    case Err(e) => Err(e)
    case Ok(user) => Ok(ToUserRead(user.id, user.rec))
  }

  /**
   * The token from a login, presented at once to `me`, yields the user who
   * logged in when that user is active, and the credentials error when not:
   * an inactive user obtains a token that is refused everywhere.
   */
  lemma LoginThenMe(s: Store, email: string, password: string, settings: Settings, now: int)
    requires ValidStore(s)
    requires settings.accessTokenExpireMinutes >= 0
    requires Authenticate(s, email, password).Some?
    ensures var user := Authenticate(s, email, password).value;
      var t := Login(s, email, password, settings, now).value.accessToken;
      Me(s, Some(t), settings, now)
        == if IsActiveUser(user) then Ok(ToUserRead(user.id, user.rec)) else Err(CredentialsError)
  {
    var user := Authenticate(s, email, password).value;
    if IsActiveUser(user) {
      IssuedTokenResolves(s, user, None, settings, now, now);
    } else {
      assert ValidTable(Users, s.Tab(Users));
      FindUnique(s.users, user);
      InactiveOrDeletedUserRejected(s, user.id, None, settings, now, now);
    }
  }
}
