/**
 * The `/test-suites` router (app/routers/test_suites.py). Every endpoint is
 * scoped to the resolved current user: a suite another user owns is
 * answered exactly like a suite that does not exist.
 */
module SuiteRoutes {
  import opened Wrappers
  import opened Models
  import opened Errors
  import opened Tables
  import opened Stores
  import opened Schemas
  import opened Cascade
  import opened Crud
  import opened SuiteCrud

  const SuiteNotFound := HttpException(404, "Test suite not found")

  /** The suite's `owner_id` is the user's key. */
  predicate Owns(suite: Row, user: Row)
  {
    Matches(suite, OwnerId, Int(user.id))
  }

  /** `GET /test-suites/`: one page of the caller's own suites. */
  function ListSuites(s: Store, user: Row, skip: int, limit: int): (r: seq<Row>)
    ensures IsPageOf(r, WhereEq(s.suites, OwnerId, Int(user.id)), skip, limit)
    ensures limit >= 0 ==> |r| <= limit
    ensures forall suite :: suite in r ==> suite in s.suites && Owns(suite, user)
    ensures skip <= 0 && limit < 0 ==> forall suite :: suite in s.suites && Owns(suite, user) ==> suite in r
  {
    GetMultiByOwner(s, user.id, skip, limit)
  }

  /** Paging through the caller's suites neither skips nor repeats one. */
  lemma ListSuitesPagesJoin(s: Store, user: Row, skip: int, k: int)
    requires skip >= 0 && k >= 0
    ensures ListSuites(s, user, skip, k) + ListSuites(s, user, skip + k, k) == ListSuites(s, user, skip, 2 * k)
  {
    var hits := WhereEq(s.suites, OwnerId, Int(user.id));
    PageOfUnique(ListSuites(s, user, skip, k), Page(hits, skip, k), hits, skip, k);
    PageOfUnique(ListSuites(s, user, skip + k, k), Page(hits, skip + k, k), hits, skip + k, k);
    PageOfUnique(ListSuites(s, user, skip, 2 * k), Page(hits, skip, 2 * k), hits, skip, 2 * k);
    ConsecutivePages(hits, skip, k);
  }

  /**
   * `GET /test-suites/{suite_id}`, and the lookup-and-check the update and
   * delete endpoints start with: the suite if it exists and the user owns
   * it, otherwise the one 404.
   */
  function GetSuite(s: Store, suiteId: int, user: Row): (r: Result<Row, ApiError>)
    ensures r.Ok? <==> Get(s, Suites, suiteId).Some? && Owns(Get(s, Suites, suiteId).value, user)
    ensures r.Ok? ==> r.value in s.suites && r.value.id == suiteId && Owns(r.value, user)
    ensures r.Err? ==> r.error == SuiteNotFound
  {
    match Get(s, Suites, suiteId)
    case None => Err(SuiteNotFound)
    case Some(suite) => if Owns(suite, user) then Ok(suite) else Err(SuiteNotFound)
  }

  /** In a valid store a suite is visible to a user exactly when a suite with that key is theirs. */
  lemma SuiteVisibleIffOwned(s: Store, suiteId: int, user: Row)
    requires ValidStore(s)
    ensures GetSuite(s, suiteId, user).Ok? <==> exists suite :: suite in s.suites && suite.id == suiteId && Owns(suite, user)
  {
    assert ValidTable(Suites, s.Tab(Suites));
    if suite :| suite in s.suites && suite.id == suiteId && Owns(suite, user) {
      FindUnique(s.suites, suite);
    }
  }

  /** A missing suite and somebody else's suite give the identical response. */
  lemma MissingAndForeignAlike(s: Store, missing: int, foreign: int, user: Row)
    requires Get(s, Suites, missing).None?
    requires Get(s, Suites, foreign).Some? && !Owns(Get(s, Suites, foreign).value, user)
    ensures GetSuite(s, missing, user) == GetSuite(s, foreign, user) == Err(SuiteNotFound)
  {
  }

  /**
   * `POST /test-suites/`: the body's fields with `owner_id` injected from the
   * current user; the body cannot name an owner.
   */
  method CreateSuite(db: Session, body: SuiteCreate, user: Row, now: int) returns (r: Result<Row, ApiError>)
    requires db.Valid()
    modifies db
    ensures db.Valid()
    ensures Outcome(db.store, r) == CreateOutcome(old(db.store), Suites, DumpSuiteCreate(body), map[OwnerId := Int(user.id)], now)
  {
    r := Crud.Create(db, Suites, DumpSuiteCreate(body), map[OwnerId := Int(user.id)], now);
  }

  /**
   * Creating a suite always succeeds; the new suite belongs to the caller,
   * carries the body's fields, and is the caller's to read from then on.
   */
  lemma CreatedSuiteIsOwned(s: Store, body: SuiteCreate, user: Row, now: int)
    requires ValidStore(s)
    ensures var o := CreateOutcome(s, Suites, DumpSuiteCreate(body), map[OwnerId := Int(user.id)], now);
      && o.result.Ok?
      && Owns(o.result.value, user)
      && o.result.value.rec[Name] == Str(body.name)
      && o.result.value.rec[Description] == OptStr(body.description)
      && GetSuite(o.store, o.result.value.id, user) == Ok(o.result.value)
  {
    var d := DumpSuiteCreate(body);
    var extra := map[OwnerId := Int(user.id)];
    DefsUnfold();
    SuiteRecord(body, user, now);
    SuiteRecordAdmissible(s.Tab(Suites), body, user, now);
    CreateSucceeds(s, Suites, d, extra, now, Construct(SuiteModel, d + extra, now).value);
    CreateKeepsValid(s, Suites, d, extra, now);
  }

  /** The record a suite body and its injected owner build: the caller as owner, the body's name and description. */
  lemma SuiteRecord(body: SuiteCreate, user: Row, now: int)
    ensures Construct(SuiteModel, DumpSuiteCreate(body) + map[OwnerId := Int(user.id)], now).Ok?
    ensures var rec := Construct(SuiteModel, DumpSuiteCreate(body) + map[OwnerId := Int(user.id)], now).value;
      && OwnerId in rec && rec[OwnerId] == Int(user.id)
      && rec[Name] == Str(body.name)
      && rec[Description] == OptStr(body.description)
  {
    var data := DumpSuiteCreate(body) + map[OwnerId := Int(user.id)];
    ConstructAt(SuiteModel, data, now, OwnerId);
    ConstructAt(SuiteModel, data, now, Name);
    ConstructAt(SuiteModel, data, now, Description);
  }

  /** The record a suite body and its injected owner build always passes the commit. */
  lemma SuiteRecordAdmissible(rows: seq<Row>, body: SuiteCreate, user: Row, now: int)
    ensures Construct(SuiteModel, DumpSuiteCreate(body) + map[OwnerId := Int(user.id)], now).Ok?
    ensures Admissible(Suites, rows, NewId(rows), Construct(SuiteModel, DumpSuiteCreate(body) + map[OwnerId := Int(user.id)], now).value)
  {
    SuiteRecordNotNull(body, user, now);
  }

  lemma SuiteRecordNotNull(body: SuiteCreate, user: Row, now: int)
    ensures Construct(SuiteModel, DumpSuiteCreate(body) + map[OwnerId := Int(user.id)], now).Ok?
    ensures NotNullHolds(SuiteModel, Construct(SuiteModel, DumpSuiteCreate(body) + map[OwnerId := Int(user.id)], now).value)
  {
    var data := DumpSuiteCreate(body) + map[OwnerId := Int(user.id)];
    forall c | c in SuiteModel.notNull
      ensures Supplied(SuiteModel, data, now, c)
    {
      if c in {Name, OwnerId} {
        assert c in data;
      }
    }
    ConstructNotNull(SuiteModel, data, now);
  }

  /** After a create, the caller's unpaged listing is the old one plus the new suite. */
  lemma CreatedSuiteListed(s: Store, body: SuiteCreate, user: Row, now: int)
    requires ValidStore(s)
    ensures var o := CreateOutcome(s, Suites, DumpSuiteCreate(body), map[OwnerId := Int(user.id)], now);
      o.result.Ok? && forall suite :: suite in ListSuites(o.store, user, 0, -1) <==>
        suite in ListSuites(s, user, 0, -1) || suite == o.result.value
  {
    CreatedSuiteIsOwned(s, body, user, now);
    var o := CreateOutcome(s, Suites, DumpSuiteCreate(body), map[OwnerId := Int(user.id)], now);
    assert o.store.Tab(Suites) == s.Tab(Suites) + [o.result.value];
    ListingGainsSuite(s, o.store, o.result.value, user);
  }

  lemma ListingGainsSuite(s: Store, t: Store, row: Row, user: Row)
    requires t.suites == s.suites + [row]
    requires Owns(row, user)
    ensures forall suite :: suite in ListSuites(t, user, 0, -1) <==> suite in ListSuites(s, user, 0, -1) || suite == row
  {
  }

  /**
   * `PATCH /test-suites/{suite_id}` as a function of the store: the
   * ownership check, then the generic update with the fields the caller set.
   */
  function UpdateSuiteOutcome(s: Store, suiteId: int, body: SuiteUpdate, user: Row, now: int): (o: Outcome<Row>)
    ensures GetSuite(s, suiteId, user).Err? ==> o == Outcome(s, Err(SuiteNotFound))
    ensures o.result.Err? ==> o.store == s
    ensures o.result.Ok? ==> GetSuite(s, suiteId, user).Ok? && o.result.value.id == suiteId
  {
    match GetSuite(s, suiteId, user)
    case Err(e) => Outcome(s, Err(e))
    case Ok(suite) => UpdateOutcome(s, Suites, suite, DumpSuiteUpdate(body), now)
  }

  /** Past the ownership check, the route is the generic update of the found suite, whose preconditions hold. */
  lemma UpdateSuiteIsUpdate(s: Store, suiteId: int, body: SuiteUpdate, user: Row, now: int)
    requires GetSuite(s, suiteId, user).Ok?
    ensures GetSuite(s, suiteId, user).value in s.Tab(Suites)
    ensures DumpSuiteUpdate(body).Keys <= Def(Suites).columns
    ensures UpdateSuiteOutcome(s, suiteId, body, user, now)
              == UpdateOutcome(s, Suites, GetSuite(s, suiteId, user).value, DumpSuiteUpdate(body), now)
  {
  }

  /**
   * A successful update keeps the owner and the creation instant, writes
   * the fields the caller set and keeps those it left out.
   */
  lemma SuiteUpdateEffect(s: Store, suiteId: int, body: SuiteUpdate, user: Row, now: int)
    requires ValidStore(s)
    requires UpdateSuiteOutcome(s, suiteId, body, user, now).result.Ok?
    ensures var before := GetSuite(s, suiteId, user).value;
      var after := UpdateSuiteOutcome(s, suiteId, body, user, now).result.value;
      && Owns(after, user)
      && after.rec[CreatedAt] == before.rec[CreatedAt]
      && (body.name.Set? ==> after.rec[Name] == OptStr(body.name.value))
      && (body.name.Unset? ==> after.rec[Name] == before.rec[Name])
      && (body.description.Set? ==> after.rec[Description] == OptStr(body.description.value))
      && (body.description.Unset? ==> after.rec[Description] == before.rec[Description])
  {
    assert ValidTable(Suites, s.Tab(Suites));
    assert GetSuite(s, suiteId, user).value.rec.Keys == SuiteModel.columns;
    UpdateEffectOnStoredSuite(s, suiteId, body, user, now);
  }

  lemma UpdateEffectOnStoredSuite(s: Store, suiteId: int, body: SuiteUpdate, user: Row, now: int)
    requires UpdateSuiteOutcome(s, suiteId, body, user, now).result.Ok?
    requires GetSuite(s, suiteId, user).value.rec.Keys == SuiteModel.columns
    ensures var before := GetSuite(s, suiteId, user).value;
      var after := UpdateSuiteOutcome(s, suiteId, body, user, now).result.value;
      && Owns(after, user)
      && after.rec[CreatedAt] == before.rec[CreatedAt]
      && (body.name.Set? ==> after.rec[Name] == OptStr(body.name.value))
      && (body.name.Unset? ==> after.rec[Name] == before.rec[Name])
      && (body.description.Set? ==> after.rec[Description] == OptStr(body.description.value))
      && (body.description.Unset? ==> after.rec[Description] == before.rec[Description])
  {
    var before := GetSuite(s, suiteId, user).value;
    var changes := DumpSuiteUpdate(body);
    UpdateSuiteIsUpdate(s, suiteId, body, user, now);
    UpdateKeepsColumn(s, Suites, before, changes, now, OwnerId);
    UpdateKeepsColumn(s, Suites, before, changes, now, CreatedAt);
    if body.name.Unset? {
      UpdateKeepsColumn(s, Suites, before, changes, now, Name);
    }
    if body.description.Unset? {
      UpdateKeepsColumn(s, Suites, before, changes, now, Description);
    }
  }

  method UpdateSuite(db: Session, suiteId: int, body: SuiteUpdate, user: Row, now: int) returns (r: Result<Row, ApiError>)
    requires db.Valid()
    modifies db
    ensures db.Valid()
    ensures Outcome(db.store, r) == UpdateSuiteOutcome(old(db.store), suiteId, body, user, now)
  {
    var found := GetSuite(db.store, suiteId, user);
    if found.Err? {
      return Err(found.error);
    }
    UpdateSuiteIsUpdate(db.store, suiteId, body, user, now);
    r := Crud.Update(db, Suites, found.value, DumpSuiteUpdate(body), now);
  }

  /**
   * In a valid database the owner's update of a suite succeeds exactly when
   * it does not set the name to null: a PATCH that renames the suite or
   * edits its description is answered 200.
   */
  lemma SuiteUpdateSucceeds(s: Store, suiteId: int, body: SuiteUpdate, user: Row, now: int)
    requires ValidTable(Suites, s.Tab(Suites))
    requires GetSuite(s, suiteId, user).Ok?
    ensures UpdateSuiteOutcome(s, suiteId, body, user, now).result.Ok? <==> body.name != Set(None)
  {
    UpdateSuiteIsUpdate(s, suiteId, body, user, now);
    OnlyUsersHaveUniqueColumns(Suites);
    UpdateSucceedsIff(s, Suites, GetSuite(s, suiteId, user).value, DumpSuiteUpdate(body), now);
    SuiteChangesNonNull(body);
  }

  /** Of a suite's update fields only the name is NOT NULL. */
  lemma SuiteChangesNonNull(body: SuiteUpdate)
    ensures NoNullIntoNotNull(Def(Suites), DumpSuiteUpdate(body)) <==> body.name != Set(None)
  {
    var d := DumpSuiteUpdate(body);
    if body.name == Set(None) {
      assert Name in d && Name in Def(Suites).notNull && d[Name] == Null;
    }
  }

  /** Setting the suite's name to null is refused by the database (500), and nothing changes. */
  lemma NullNameRefused(s: Store, suiteId: int, body: SuiteUpdate, user: Row, now: int)
    requires body.name == Set(None)
    ensures UpdateSuiteOutcome(s, suiteId, body, user, now).store == s
    ensures UpdateSuiteOutcome(s, suiteId, body, user, now).result.Err?
  {
    if GetSuite(s, suiteId, user).Ok? {
      assert Name in DumpSuiteUpdate(body) && DumpSuiteUpdate(body)[Name] == Null;
    }
  }

  /** `DELETE /test-suites/{suite_id}` as a function of the store. */
  function DeleteSuiteOutcome(s: Store, suiteId: int, user: Row, policy: RunLinkPolicy): (o: Outcome<()>)
    ensures GetSuite(s, suiteId, user).Err? ==> o == Outcome(s, Err(SuiteNotFound))
    ensures GetSuite(s, suiteId, user).Ok? ==> o == Outcome(Deleted(s, Suites, suiteId, policy), Ok(()))
  {
    if GetSuite(s, suiteId, user).Err? then Outcome(s, Err(SuiteNotFound))
    else Outcome(Deleted(s, Suites, suiteId, policy), Ok(()))
  }

  method DeleteSuite(db: Session, suiteId: int, user: Row) returns (r: Result<(), ApiError>)
    requires db.Valid()
    modifies db
    ensures db.Valid()
    ensures Outcome(db.store, r) == DeleteSuiteOutcome(old(db.store), suiteId, user, db.policy)
  {
    var found := GetSuite(db.store, suiteId, user);
    if found.Err? {
      return Err(found.error);
    }
    var _ := Crud.Delete(db, Suites, suiteId);
    r := Ok(());
  }

  /**
   * An owner's delete removes the suite for everyone, with its cases and
   * their results; a later read is the 404.
   */
  lemma DeletedSuiteIsGone(s: Store, suiteId: int, user: Row, reader: Row, policy: RunLinkPolicy)
    requires GetSuite(s, suiteId, user).Ok?
    ensures var o := DeleteSuiteOutcome(s, suiteId, user, policy);
      && o.result.Ok?
      && GetSuite(o.store, suiteId, reader) == Err(SuiteNotFound)
      && (forall c :: c in o.store.cases ==> !RefersTo(c, SuiteId, {suiteId}))
  {
    SuiteDeleteCascade(s, suiteId, policy);
  }
}
