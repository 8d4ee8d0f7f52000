/**
 * The `/test-results` router (app/routers/test_results.py). Like runs,
 * results are open to every authenticated caller; none of these functions
 * takes a user.
 */
module ResultRoutes {
  import opened Wrappers
  import opened Models
  import opened Errors
  import opened Tables
  import opened Stores
  import opened Schemas
  import opened Cascade
  import opened Crud
  import opened ResultCrud

  const ResultNotFound := HttpException(404, "Test result not found")

  /** `GET /test-results/?run_id=..`: one page of that run's results. */
  function ListResults(s: Store, runId: int, skip: int, limit: int): (r: seq<Row>)
    ensures IsPageOf(r, WhereEq(s.results, RunId, Int(runId)), skip, limit)
    ensures limit >= 0 ==> |r| <= limit
    ensures forall res :: res in r ==> res in s.results && Matches(res, RunId, Int(runId))
    ensures skip <= 0 && limit < 0 ==> forall res :: res in s.results && Matches(res, RunId, Int(runId)) ==> res in r
  {
    GetMultiByRun(s, runId, skip, limit)
  }

  /** `POST /test-results/`: the body is inserted as it is; neither reference is looked up. */
  method CreateResult(db: Session, body: ResultCreate, now: int) returns (r: Result<Row, ApiError>)
    requires db.Valid()
    modifies db
    ensures db.Valid()
    ensures Outcome(db.store, r) == CreateOutcome(old(db.store), Results, DumpResultCreate(body), map[], now)
  {
    r := Crud.Create(db, Results, DumpResultCreate(body), map[], now);
  }

  /**
   * The record a validated result body builds: the body's references,
   * status, notes and duration, executed at `now`.
   */
  lemma ResultRecord(body: ResultCreate, now: int)
    ensures Construct(ResultModel, DumpResultCreate(body), now).Ok?
    ensures var rec := Construct(ResultModel, DumpResultCreate(body), now).value;
      && rec[RunId] == Int(body.runId)
      && rec[TestCaseId] == Int(body.testCaseId)
      && rec[Status] == ResultStatusValue(body.status)
      && rec[DurationMs] == OptInt(body.durationMs)
      && rec[ExecutedAt] == Instant(now)
  {
  }

  /** That record always satisfies the results table's constraints, whatever the table holds. */
  lemma ResultRecordAdmissible(rows: seq<Row>, body: ResultCreate, now: int)
    ensures Construct(ResultModel, DumpResultCreate(body), now).Ok?
    ensures Admissible(Results, rows, NewId(rows), Construct(ResultModel, DumpResultCreate(body), now).value)
  {
    var d := DumpResultCreate(body);
    DefsUnfold();
    forall c | c in ResultModel.notNull
      ensures Supplied(ResultModel, d, now, c)
    {
      if c != ExecutedAt {
        assert c in {RunId, TestCaseId, Status};
      }
    }
    ConstructNotNull(ResultModel, d, now);
  }

  /**
   * Creating a result always succeeds, whether or not its run and its case
   * exist: the references are stored as given and no other table changes.
   */
  lemma CreateResultAlwaysSucceeds(s: Store, body: ResultCreate, now: int)
    ensures var o := CreateOutcome(s, Results, DumpResultCreate(body), map[], now);
      && o.result.Ok?
      && o.result.value.rec[RunId] == Int(body.runId)
      && o.result.value.rec[TestCaseId] == Int(body.testCaseId)
      && o.result.value.rec[Status] == ResultStatusValue(body.status)
      && o.store.runs == s.runs && o.store.cases == s.cases
  {
    DefsUnfold();
    ResultRecord(body, now);
    ResultRecordAdmissible(s.Tab(Results), body, now);
    CreateDumpSucceeds(s, Results, DumpResultCreate(body), now);
  }

  /** `GET /test-results/{result_id}`. */
  function GetResult(s: Store, resultId: int): (r: Result<Row, ApiError>)
    ensures r.Err? <==> resultId !in Ids(s.results)
    ensures r.Err? ==> r.error == ResultNotFound
    ensures r.Ok? ==> r.value in s.results && r.value.id == resultId
  {
    match Get(s, Results, resultId)
    case None => Err(ResultNotFound)
    case Some(res) => Ok(res)
  }

  /** `PATCH /test-results/{result_id}` as a function of the store. */
  function UpdateResultOutcome(s: Store, resultId: int, body: ResultUpdate, now: int): (o: Outcome<Row>)
    ensures resultId !in Ids(s.results) ==> o == Outcome(s, Err(ResultNotFound))
    ensures o.result.Err? ==> o.store == s
    ensures o.result.Ok? ==> GetResult(s, resultId).Ok? && o.result.value.id == resultId
  {
    match GetResult(s, resultId)
    case Err(e) => Outcome(s, Err(e))
    case Ok(res) => UpdateOutcome(s, Results, res, DumpResultUpdate(body), now)
  }

  /**
   * A successful partial update keeps every field the caller left out (the
   * duration and the notes among them) and the references to the run and
   * the case, which the update schema cannot name.
   */
  lemma ResultUpdateKeepsUnset(s: Store, resultId: int, body: ResultUpdate, now: int)
    requires UpdateResultOutcome(s, resultId, body, now).result.Ok?
    ensures var before := GetResult(s, resultId).value;
      var after := UpdateResultOutcome(s, resultId, body, now).result.value;
      && (body.durationMs.Unset? && DurationMs in before.rec ==> after.rec[DurationMs] == before.rec[DurationMs])
      && (body.notes.Unset? && Notes in before.rec ==> after.rec[Notes] == before.rec[Notes])
      && (body.status.Unset? && Status in before.rec ==> after.rec[Status] == before.rec[Status])
      && (body.durationMs.Set? ==> after.rec[DurationMs] == OptInt(body.durationMs.value))
      && (body.notes.Set? ==> after.rec[Notes] == OptStr(body.notes.value))
      && (body.status.Set? ==> after.rec[Status] == OptResultStatus(body.status.value))
      && (RunId in before.rec ==> after.rec[RunId] == before.rec[RunId])
      && (TestCaseId in before.rec ==> after.rec[TestCaseId] == before.rec[TestCaseId])
  {
    var before := GetResult(s, resultId).value;
    var changes := DumpResultUpdate(body);
    UpdateResultIsUpdate(s, resultId, body, now);
    if body.durationMs.Unset? && DurationMs in before.rec {
      UpdateKeepsColumn(s, Results, before, changes, now, DurationMs);
    }
    if body.notes.Unset? && Notes in before.rec {
      UpdateKeepsColumn(s, Results, before, changes, now, Notes);
    }
    if body.status.Unset? && Status in before.rec {
      UpdateKeepsColumn(s, Results, before, changes, now, Status);
    }
    if RunId in before.rec {
      UpdateKeepsColumn(s, Results, before, changes, now, RunId);
    }
    if TestCaseId in before.rec {
      UpdateKeepsColumn(s, Results, before, changes, now, TestCaseId);
    }
  }

  /** Past the lookup, the route is the generic update of the found row, whose preconditions hold. */
  lemma UpdateResultIsUpdate(s: Store, resultId: int, body: ResultUpdate, now: int)
    requires GetResult(s, resultId).Ok?
    ensures GetResult(s, resultId).value in s.Tab(Results)
    ensures DumpResultUpdate(body).Keys <= Def(Results).columns
    ensures UpdateResultOutcome(s, resultId, body, now)
              == UpdateOutcome(s, Results, GetResult(s, resultId).value, DumpResultUpdate(body), now)
  {
  }

  /** In a valid database an update of an existing result succeeds exactly when it does not set the status to null. */
  lemma ResultUpdateSucceeds(s: Store, resultId: int, body: ResultUpdate, now: int)
    requires ValidTable(Results, s.Tab(Results))
    requires GetResult(s, resultId).Ok?
    ensures UpdateResultOutcome(s, resultId, body, now).result.Ok? <==> body.status != Set(None)
  {
    UpdateResultIsUpdate(s, resultId, body, now);
    OnlyUsersHaveUniqueColumns(Results);
    UpdateSucceedsIff(s, Results, GetResult(s, resultId).value, DumpResultUpdate(body), now);
    ResultChangesNonNull(body);
  }

  /** Of a result's update fields only the status is NOT NULL. */
  lemma ResultChangesNonNull(body: ResultUpdate)
    ensures NoNullIntoNotNull(Def(Results), DumpResultUpdate(body)) <==> body.status != Set(None)
  {
    var d := DumpResultUpdate(body);
    if body.status == Set(None) {
      assert Status in d && Status in Def(Results).notNull && d[Status] == Null;
    }
  }

  method UpdateResult(db: Session, resultId: int, body: ResultUpdate, now: int) returns (r: Result<Row, ApiError>)
    requires db.Valid()
    modifies db
    ensures db.Valid()
    ensures Outcome(db.store, r) == UpdateResultOutcome(old(db.store), resultId, body, now)
  {
    var found := GetResult(db.store, resultId);
    if found.Err? {
      return Err(found.error);
    }
    UpdateResultIsUpdate(db.store, resultId, body, now);
    r := Crud.Update(db, Results, found.value, DumpResultUpdate(body), now);
  }

  /** `DELETE /test-results/{result_id}` as a function of the store: the 404 exactly when nothing was deleted. */
  function DeleteResultOutcome(s: Store, resultId: int, policy: RunLinkPolicy): (o: Outcome<()>)
    ensures o.store == Deleted(s, Results, resultId, policy)
    ensures o.result.Err? <==> resultId !in Ids(s.results)
    ensures o.result.Err? ==> o.store == s && o.result.error == ResultNotFound
  {
    if Get(s, Results, resultId).None? then Outcome(s, Err(ResultNotFound))
    else Outcome(Deleted(s, Results, resultId, policy), Ok(()))
  }

  method DeleteResult(db: Session, resultId: int) returns (r: Result<(), ApiError>)
    requires db.Valid()
    modifies db
    ensures db.Valid()
    ensures Outcome(db.store, r) == DeleteResultOutcome(old(db.store), resultId, db.policy)
  {
    var deleted := Crud.Delete(db, Results, resultId);
    if deleted.None? {
      return Err(ResultNotFound);
    }
    r := Ok(());
  }

  /** Deleting a result removes just that row; a later read is the 404 and the other tables are untouched. */
  lemma DeletedResultIsGone(s: Store, resultId: int, policy: RunLinkPolicy)
    requires resultId in Ids(s.results)
    ensures var o := DeleteResultOutcome(s, resultId, policy);
      && GetResult(o.store, resultId) == Err(ResultNotFound)
      && (forall res :: res in o.store.results <==> res in s.results && res.id != resultId)
      && o.store.users == s.users && o.store.suites == s.suites
      && o.store.cases == s.cases && o.store.runs == s.runs
  {
  }
}
