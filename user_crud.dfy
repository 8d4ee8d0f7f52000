/**
 * `CRUDUser` (app/crud/user.py): lookup by email, creation with a hashed
 * password, and authentication by email and password.
 */
module UserCrud {
  import opened Wrappers
  import opened Models
  import opened Errors
  import opened Security
  import opened Tables
  import opened Stores
  import opened Schemas
  import opened Crud

  /** `get_by_email(db, email)`: the first user whose email is exactly `email`. */
  function GetByEmail(s: Store, email: string): (r: Option<Row>)
    ensures r.Some? ==> r.value in s.users && Matches(r.value, Email, Str(email))
    ensures r.None? <==> forall u :: u in s.users ==> !Matches(u, Email, Str(email))
  {
    var hits := WhereEq(s.users, Email, Str(email));
    if hits == [] then None
    else
      assert hits[0] in hits;
      Some(hits[0])
  }

  /** `verify_password(password, user.hashed_password)`. */
  predicate PasswordMatches(user: Row, password: string)
  {
    HashedPassword in user.rec && user.rec[HashedPassword].Hash?
    && VerifyPassword(password, user.rec[HashedPassword].h)
  }

  /**
   * `authenticate(db, email, password)`: the user with that email if the
   * password verifies against its hash, None otherwise. Whether the user is
   * active plays no part.
   */
  function Authenticate(s: Store, email: string, password: string): (r: Option<Row>)
    ensures r.Some? <==> GetByEmail(s, email).Some? && PasswordMatches(GetByEmail(s, email).value, password)
    ensures r.Some? ==> r == GetByEmail(s, email)
  {
    match GetByEmail(s, email)
    case None => None
    case Some(user) => if PasswordMatches(user, password) then Some(user) else None
  }

  /**
   * The fields `create` builds a user from: the email and the hash of the
   * password. The salt bcrypt draws at random is a parameter.
   */
  function NewUserFields(body: UserCreate, salt: nat): (d: Record)
    ensures d.Keys == {Email, HashedPassword}
    ensures d[Email] == Str(body.email)
    ensures d[HashedPassword].Hash?
    ensures forall p :: VerifyPassword(p, d[HashedPassword].h) <==> p == body.password
    ensures forall c :: c in d && d[c] == Str(body.password) ==> c == Email
  {
    map[Email := Str(body.email), HashedPassword := Hash(HashPassword(body.password, salt))]
  }

  /** `create(db, obj_in, **extra)`: `extra` is accepted and ignored. */
  method Create(db: Session, body: UserCreate, extra: Record, salt: nat, now: int) returns (r: Result<Row, ApiError>)
    requires db.Valid()
    modifies db
    ensures db.Valid()
    ensures Outcome(db.store, r) == CreateOutcome(old(db.store), Users, NewUserFields(body, salt), map[], now)
  {
    r := Crud.Create(db, Users, NewUserFields(body, salt), map[], now);
  }

  /**
   * Creating a user under an email nobody has succeeds: exactly one user
   * is added, active, holding a hash that verifies the password and only
   * it, and nothing else changes.
   */
  lemma CreateWithNewEmail(s: Store, body: UserCreate, salt: nat, now: int)
    requires GetByEmail(s, body.email).None?
    ensures var o := CreateOutcome(s, Users, NewUserFields(body, salt), map[], now);
      && o.result.Ok?
      && o.store.users == s.users + [o.result.value]
      && o.store.suites == s.suites && o.store.cases == s.cases
      && o.store.runs == s.runs && o.store.results == s.results
      && o.result.value.rec[Email] == Str(body.email)
      && o.result.value.rec[IsActive] == Bool(true)
      && (forall p :: PasswordMatches(o.result.value, p) <==> p == body.password)
  {
    DefsUnfold();
    NewUserAdmissible(s, body, salt, now);
    NewUserRecord(body, salt, now);
    CreateDumpSucceeds(s, Users, NewUserFields(body, salt), now);
  }

  /** The record built for a new user: its email, the default `is_active`, and a hash only the password verifies. */
  lemma NewUserRecord(body: UserCreate, salt: nat, now: int)
    ensures Construct(UserModel, NewUserFields(body, salt), now).Ok?
    ensures var rec := Construct(UserModel, NewUserFields(body, salt), now).value;
      && Email in rec && rec[Email] == Str(body.email)
      && IsActive in rec && rec[IsActive] == Bool(true)
      && forall p :: PasswordMatches(Row(0, rec), p) <==> p == body.password
  {
    var d := NewUserFields(body, salt);
    var rec := Construct(UserModel, d, now).value;
    assert rec[Email] == d[Email] && rec[HashedPassword] == d[HashedPassword];
  }

  /** Under an email nobody has, the new user's record passes the commit: nothing is NULL and the email clashes with no row. */
  lemma NewUserAdmissible(s: Store, body: UserCreate, salt: nat, now: int)
    requires GetByEmail(s, body.email).None?
    ensures Construct(UserModel, NewUserFields(body, salt), now).Ok?
    ensures Admissible(Users, s.Tab(Users), NewId(s.Tab(Users)), Construct(UserModel, NewUserFields(body, salt), now).value)
  {
    var d := NewUserFields(body, salt);
    var rows := s.users;
    var rec := Construct(UserModel, d, now).value;
    DefsUnfold();
    NewUserNotNull(body, salt, now);
    ConstructAt(UserModel, d, now, Email);
    forall row | row in rows && row.id != NewId(rows)
      ensures !Clash(UserModel, row.rec, rec)
    {
      assert !Matches(row, Email, Str(body.email));
    }
  }

  /** The new user's record holds a value in every NOT NULL column. */
  lemma NewUserNotNull(body: UserCreate, salt: nat, now: int)
    ensures Construct(UserModel, NewUserFields(body, salt), now).Ok?
    ensures NotNullHolds(UserModel, Construct(UserModel, NewUserFields(body, salt), now).value)
  {
    var d := NewUserFields(body, salt);
    forall c | c in UserModel.notNull
      ensures Supplied(UserModel, d, now, c)
    {
      if c in d {
        assert d[c] == Str(body.email) || d[c].Hash?;
      }
    }
    ConstructNotNull(UserModel, d, now);
  }

  /** After registering, logging in with the same email and password finds the new user. */
  lemma LoginAfterCreate(s: Store, body: UserCreate, salt: nat, now: int)
    requires GetByEmail(s, body.email).None?
    ensures var o := CreateOutcome(s, Users, NewUserFields(body, salt), map[], now);
      o.result.Ok? && Authenticate(o.store, body.email, body.password) == Some(o.result.value)
  {
    CreateWithNewEmail(s, body, salt, now);
    var o := CreateOutcome(s, Users, NewUserFields(body, salt), map[], now);
    var row := o.result.value;
    WhereEqSnoc(s.users, row, Email, Str(body.email));
    assert WhereEq(s.users, Email, Str(body.email)) == [];
    assert WhereEq(o.store.users, Email, Str(body.email)) == [row];
  }
}
