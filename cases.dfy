/**
 * The `/test-cases` router (app/routers/test_cases.py). A case has no owner
 * of its own: access goes through the suite it belongs to, checked by the
 * same lookup as `GET /test-suites/{suite_id}` (`_assert_suite_access` is
 * `GetSuite`) before anything is read or written.
 */
module CaseRoutes {
  import opened Wrappers
  import opened Models
  import opened Errors
  import opened Tables
  import opened Stores
  import opened Schemas
  import opened Cascade
  import opened Crud
  import opened CaseCrud
  import opened SuiteRoutes

  const CaseNotFound := HttpException(404, "Test case not found")

  /**
   * The key in the case's `suite_id`. A stored case always holds one (the
   * column is NOT NULL); a record without one yields 0, which no row has.
   */
  function ParentSuite(c: Row): (id: int)
    ensures Matches(c, SuiteId, Int(id)) || id == 0
  {
    if SuiteId in c.rec && c.rec[SuiteId].Int? then c.rec[SuiteId].i else 0
  }

  /**
   * `GET /test-cases/?suite_id=..`: the suite check first, then one page of
   * that suite's cases.
   */
  function ListCases(s: Store, suiteId: int, user: Row, skip: int, limit: int): (r: Result<seq<Row>, ApiError>)
    ensures r.Err? <==> GetSuite(s, suiteId, user).Err?
    ensures r.Err? ==> r.error == SuiteNotFound
    ensures r.Ok? ==> IsPageOf(r.value, WhereEq(s.cases, SuiteId, Int(suiteId)), skip, limit)
    ensures r.Ok? ==> limit >= 0 ==> |r.value| <= limit
    ensures r.Ok? ==> forall c :: c in r.value ==> c in s.cases && Matches(c, SuiteId, Int(suiteId))
    ensures r.Ok? && skip <= 0 && limit < 0 ==>
              forall c :: c in s.cases && Matches(c, SuiteId, Int(suiteId)) ==> c in r.value
  {
    match GetSuite(s, suiteId, user)
    case Err(e) => Err(e)
    case Ok(_) => Ok(GetMultiBySuite(s, suiteId, skip, limit))
  }

  /** Every case a listing returns sits in a suite the caller owns. */
  lemma ListedCasesAreTheCallers(s: Store, suiteId: int, user: Row, skip: int, limit: int)
    requires ListCases(s, suiteId, user, skip, limit).Ok?
    ensures forall c :: c in ListCases(s, suiteId, user, skip, limit).value ==>
              GetSuite(s, ParentSuite(c), user).Ok?
  {
    forall c | c in ListCases(s, suiteId, user, skip, limit).value
      ensures GetSuite(s, ParentSuite(c), user).Ok?
    {
      assert ParentSuite(c) == suiteId;
    }
  }

  /** `POST /test-cases/` as a function of the store: nothing is inserted unless the caller owns the target suite. */
  function CreateCaseOutcome(s: Store, body: CaseCreate, user: Row, now: int): (o: Outcome<Row>)
    ensures GetSuite(s, body.suiteId, user).Err? ==> o == Outcome(s, Err(SuiteNotFound))
    ensures o.result.Ok? ==> GetSuite(s, body.suiteId, user).Ok? && Matches(o.result.value, SuiteId, Int(body.suiteId))
    ensures o.store != s ==> o.result.Ok?
  {
    match GetSuite(s, body.suiteId, user)
    case Err(e) => Outcome(s, Err(e))
    case Ok(_) => CreateOutcome(s, Cases, DumpCaseCreate(body), map[], now)
  }

  method CreateCase(db: Session, body: CaseCreate, user: Row, now: int) returns (r: Result<Row, ApiError>)
    requires db.Valid()
    modifies db
    ensures db.Valid()
    ensures Outcome(db.store, r) == CreateCaseOutcome(old(db.store), body, user, now)
  {
    var access := GetSuite(db.store, body.suiteId, user);
    if access.Err? {
      return Err(access.error);
    }
    r := Crud.Create(db, Cases, DumpCaseCreate(body), map[], now);
  }

  /** The record a validated creation body builds always satisfies the cases table's constraints. */
  lemma CaseRecordAdmissible(rows: seq<Row>, body: CaseCreate, now: int)
    ensures Construct(CaseModel, DumpCaseCreate(body), now).Ok?
    ensures Admissible(Cases, rows, NewId(rows), Construct(CaseModel, DumpCaseCreate(body), now).value)
  {
    var d := DumpCaseCreate(body);
    DefsUnfold();
    forall c | c in CaseModel.notNull
      ensures Supplied(CaseModel, d, now, c)
    {
      if c in d {
        assert c in {Title, Priority, Severity, Status, SuiteId};
      } else {
        assert c in {CreatedAt, UpdatedAt};
      }
    }
    ConstructNotNull(CaseModel, d, now);
  }

  /** In a suite the caller owns, creating a case succeeds and stores the body's fields. */
  lemma CreatedCaseFields(s: Store, body: CaseCreate, user: Row, now: int)
    requires GetSuite(s, body.suiteId, user).Ok?
    ensures var o := CreateCaseOutcome(s, body, user, now);
      && o.result.Ok?
      && o.result.value.rec[Title] == Str(body.title)
      && o.result.value.rec[Priority] == PriorityValue(body.priority)
      && o.result.value.rec[Severity] == SeverityValue(body.severity)
      && o.result.value.rec[Status] == CaseStatusValue(body.status)
  {
    CaseCreateSucceeds(s, body, user, now);
    var d := DumpCaseCreate(body);
    var rec := Construct(CaseModel, d, now).value;
    assert rec[Title] == d[Title] && rec[Priority] == d[Priority];
    assert rec[Severity] == d[Severity] && rec[Status] == d[Status];
  }

  /** In a suite the caller owns, the route is a create that succeeds with the body's record under the new key. */
  lemma CaseCreateSucceeds(s: Store, body: CaseCreate, user: Row, now: int)
    requires GetSuite(s, body.suiteId, user).Ok?
    ensures CreateCaseOutcome(s, body, user, now) == CreateOutcome(s, Cases, DumpCaseCreate(body), map[], now)
    ensures CreateOutcome(s, Cases, DumpCaseCreate(body), map[], now).result
              == Ok(Row(NewId(s.cases), Construct(CaseModel, DumpCaseCreate(body), now).value))
  {
    DefsUnfold();
    CaseRecordAdmissible(s.Tab(Cases), body, now);
    CreateDumpSucceeds(s, Cases, DumpCaseCreate(body), now);
  }

  /** The caller can read a case it has just created. */
  lemma CreatedCaseReadable(s: Store, body: CaseCreate, user: Row, now: int)
    requires ValidStore(s)
    requires GetSuite(s, body.suiteId, user).Ok?
    ensures var o := CreateCaseOutcome(s, body, user, now);
      o.result.Ok? && GetCase(o.store, o.result.value.id, user) == Ok(o.result.value)
  {
    CaseCreateSucceeds(s, body, user, now);
    var d := DumpCaseCreate(body);
    var o := CreateCaseOutcome(s, body, user, now);
    CreateKeepsValid(s, Cases, d, map[], now);
    var row := o.result.value;
    assert ParentSuite(row) == body.suiteId;
    SuiteLookupFrame(s, o.store, body.suiteId, user);
    CaseFoundInOwnedSuite(o.store, row, user);
  }

  /** The suite lookup reads the suites table only. */
  lemma SuiteLookupFrame(s: Store, t: Store, suiteId: int, user: Row)
    requires t.suites == s.suites
    ensures GetSuite(t, suiteId, user) == GetSuite(s, suiteId, user)
  {
    assert t.Tab(Suites) == s.Tab(Suites);
  }

  /** A stored case whose suite the caller owns is returned as it is stored. */
  lemma CaseFoundInOwnedSuite(s: Store, c: Row, user: Row)
    requires Get(s, Cases, c.id) == Some(c)
    requires GetSuite(s, ParentSuite(c), user).Ok?
    ensures GetCase(s, c.id, user) == Ok(c)
  {
  }

  /**
   * `GET /test-cases/{case_id}`, and the lookup the update and delete
   * endpoints start with: a missing case is the case 404; a case in a suite
   * the caller does not own is the suite 404.
   */
  function GetCase(s: Store, caseId: int, user: Row): (r: Result<Row, ApiError>)
    ensures r == Err(CaseNotFound) <==> Get(s, Cases, caseId).None?
    ensures r.Err? ==> r.error in {CaseNotFound, SuiteNotFound}
    ensures r.Ok? <==> Get(s, Cases, caseId).Some? && GetSuite(s, ParentSuite(Get(s, Cases, caseId).value), user).Ok?
    ensures r.Ok? ==> r.value in s.cases && r.value.id == caseId
  {
    match Get(s, Cases, caseId)
    case None => Err(CaseNotFound)
    case Some(c) =>
      match GetSuite(s, ParentSuite(c), user)
      case Err(e) => Err(e)
      case Ok(_) => Ok(c)
  }

  /**
   * In a valid store a case is visible exactly when it exists and the suite
   * its `suite_id` names exists and belongs to the caller.
   */
  lemma CaseVisibleIffSuiteOwned(s: Store, caseId: int, user: Row)
    requires ValidStore(s)
    ensures GetCase(s, caseId, user).Ok? <==>
      exists c, suite :: c in s.cases && c.id == caseId && suite in s.suites
                         && RefersTo(c, SuiteId, {suite.id}) && Owns(suite, user)
  {
    if c, suite :| c in s.cases && c.id == caseId && suite in s.suites
                   && RefersTo(c, SuiteId, {suite.id}) && Owns(suite, user) {
      CaseInOwnedSuiteVisible(s, c, suite, user);
    }
    if GetCase(s, caseId, user).Ok? {
      VisibleCaseInOwnedSuite(s, caseId, user);
    }
  }

  lemma CaseInOwnedSuiteVisible(s: Store, c: Row, suite: Row, user: Row)
    requires ValidStore(s)
    requires c in s.cases && suite in s.suites && RefersTo(c, SuiteId, {suite.id}) && Owns(suite, user)
    ensures GetCase(s, c.id, user).Ok?
  {
    assert ValidTable(Cases, s.Tab(Cases));
    FindUnique(s.cases, c);
    SuiteVisibleIffOwned(s, suite.id, user);
  }

  lemma VisibleCaseInOwnedSuite(s: Store, caseId: int, user: Row)
    requires ValidStore(s)
    requires GetCase(s, caseId, user).Ok?
    ensures exists c, suite :: c in s.cases && c.id == caseId && suite in s.suites
                               && RefersTo(c, SuiteId, {suite.id}) && Owns(suite, user)
  {
    var c := Get(s, Cases, caseId).value;
    var suite := GetSuite(s, ParentSuite(c), user).value;
    assert ValidTable(Suites, s.Tab(Suites));
    assert suite.id > 0;
    assert c in s.cases && suite in s.suites && RefersTo(c, SuiteId, {suite.id}) && Owns(suite, user);
  }

  /** `PATCH /test-cases/{case_id}` as a function of the store: both checks, then the generic update. */
  function UpdateCaseOutcome(s: Store, caseId: int, body: CaseUpdate, user: Row, now: int): (o: Outcome<Row>)
    ensures GetCase(s, caseId, user).Err? ==> o == Outcome(s, Err(GetCase(s, caseId, user).error))
    ensures o.result.Err? ==> o.store == s
    ensures o.result.Ok? ==> GetCase(s, caseId, user).Ok? && o.result.value.id == caseId
  {
    match GetCase(s, caseId, user)
    case Err(e) => Outcome(s, Err(e))
    case Ok(c) => UpdateOutcome(s, Cases, c, DumpCaseUpdate(body), now)
  }

  /** A successful case update cannot move the case to another suite, and keeps its creation instant. */
  lemma CaseUpdateStaysInSuite(s: Store, caseId: int, body: CaseUpdate, user: Row, now: int)
    requires UpdateCaseOutcome(s, caseId, body, user, now).result.Ok?
    ensures var before := GetCase(s, caseId, user).value;
      var after := UpdateCaseOutcome(s, caseId, body, user, now).result.value;
      && ParentSuite(after) == ParentSuite(before)
      && GetSuite(s, ParentSuite(after), user).Ok?
      && (CreatedAt in before.rec ==> CreatedAt in after.rec && after.rec[CreatedAt] == before.rec[CreatedAt])
  {
    var before := GetCase(s, caseId, user).value;
    var changes := DumpCaseUpdate(body);
    UpdateCaseIsUpdate(s, caseId, body, user, now);
    if SuiteId in before.rec {
      UpdateKeepsColumn(s, Cases, before, changes, now, SuiteId);
    }
    if CreatedAt in before.rec {
      UpdateKeepsColumn(s, Cases, before, changes, now, CreatedAt);
    }
  }

  /** Past both checks, the route is the generic update of the found case, whose preconditions hold. */
  lemma UpdateCaseIsUpdate(s: Store, caseId: int, body: CaseUpdate, user: Row, now: int)
    requires GetCase(s, caseId, user).Ok?
    ensures GetCase(s, caseId, user).value in s.Tab(Cases)
    ensures DumpCaseUpdate(body).Keys <= Def(Cases).columns
    ensures UpdateCaseOutcome(s, caseId, body, user, now)
              == UpdateOutcome(s, Cases, GetCase(s, caseId, user).value, DumpCaseUpdate(body), now)
  {
  }

  /**
   * In a valid database an update of a case the caller may see succeeds
   * exactly when it sets none of title, priority, severity and status to null.
   */
  lemma CaseUpdateSucceeds(s: Store, caseId: int, body: CaseUpdate, user: Row, now: int)
    requires ValidTable(Cases, s.Tab(Cases))
    requires GetCase(s, caseId, user).Ok?
    ensures UpdateCaseOutcome(s, caseId, body, user, now).result.Ok? <==>
              body.title != Set(None) && body.priority != Set(None)
              && body.severity != Set(None) && body.status != Set(None)
  {
    UpdateCaseIsUpdate(s, caseId, body, user, now);
    OnlyUsersHaveUniqueColumns(Cases);
    UpdateSucceedsIff(s, Cases, GetCase(s, caseId, user).value, DumpCaseUpdate(body), now);
    CaseChangesNonNull(body);
  }

  /** Of a case's update fields, title, priority, severity and status are NOT NULL. */
  lemma CaseChangesNonNull(body: CaseUpdate)
    ensures NoNullIntoNotNull(Def(Cases), DumpCaseUpdate(body)) <==>
              body.title != Set(None) && body.priority != Set(None)
              && body.severity != Set(None) && body.status != Set(None)
  {
    var d := DumpCaseUpdate(body);
    DefsUnfold();
    if body.title == Set(None) {
      assert Title in d && Title in Def(Cases).notNull && d[Title] == Null;
    } else if body.priority == Set(None) {
      assert Priority in d && Priority in Def(Cases).notNull && d[Priority] == Null;
    } else if body.severity == Set(None) {
      assert Severity in d && Severity in Def(Cases).notNull && d[Severity] == Null;
    } else if body.status == Set(None) {
      assert Status in d && Status in Def(Cases).notNull && d[Status] == Null;
    } else {
      forall c | c in d && c in Def(Cases).notNull
        ensures d[c] != Null
      {
        assert c in {Title, Priority, Severity, Status};
      }
    }
  }

  method UpdateCase(db: Session, caseId: int, body: CaseUpdate, user: Row, now: int) returns (r: Result<Row, ApiError>)
    requires db.Valid()
    modifies db
    ensures db.Valid()
    ensures Outcome(db.store, r) == UpdateCaseOutcome(old(db.store), caseId, body, user, now)
  {
    var found := GetCase(db.store, caseId, user);
    if found.Err? {
      return Err(found.error);
    }
    UpdateCaseIsUpdate(db.store, caseId, body, user, now);
    r := Crud.Update(db, Cases, found.value, DumpCaseUpdate(body), now);
  }

  /** `DELETE /test-cases/{case_id}` as a function of the store. */
  function DeleteCaseOutcome(s: Store, caseId: int, user: Row, policy: RunLinkPolicy): (o: Outcome<()>)
    ensures GetCase(s, caseId, user).Err? ==> o == Outcome(s, Err(GetCase(s, caseId, user).error))
    ensures GetCase(s, caseId, user).Ok? ==> o == Outcome(Deleted(s, Cases, caseId, policy), Ok(()))
  {
    match GetCase(s, caseId, user)
    case Err(e) => Outcome(s, Err(e))
    case Ok(_) => Outcome(Deleted(s, Cases, caseId, policy), Ok(()))
  }

  method DeleteCase(db: Session, caseId: int, user: Row) returns (r: Result<(), ApiError>)
    requires db.Valid()
    modifies db
    ensures db.Valid()
    ensures Outcome(db.store, r) == DeleteCaseOutcome(old(db.store), caseId, user, db.policy)
  {
    var found := GetCase(db.store, caseId, user);
    if found.Err? {
      return Err(found.error);
    }
    var _ := Crud.Delete(db, Cases, caseId);
    r := Ok(());
  }

  /** An owner's delete removes the case and its results; a later read is the case 404. */
  lemma DeletedCaseIsGone(s: Store, caseId: int, user: Row, reader: Row, policy: RunLinkPolicy)
    requires GetCase(s, caseId, user).Ok?
    ensures var o := DeleteCaseOutcome(s, caseId, user, policy);
      && GetCase(o.store, caseId, reader) == Err(CaseNotFound)
      && (forall res :: res in o.store.results <==> res in s.results && !RefersTo(res, TestCaseId, {caseId}))
  {
    CaseDeleteCascade(s, caseId, policy);
  }
}
