/**
 * The `/test-runs` router (app/routers/test_runs.py). Every endpoint needs
 * an authenticated caller but none looks at who it is: runs are shared by
 * all users, so these functions take no user at all.
 */
module RunRoutes {
  import opened Wrappers
  import opened Models
  import opened Errors
  import opened Tables
  import opened Stores
  import opened Schemas
  import opened Cascade
  import opened Crud

  const RunNotFound := HttpException(404, "Test run not found")

  /** `GET /test-runs/`: one page of all runs, whoever created them or owns their suite. */
  function ListRuns(s: Store, skip: int, limit: int): (r: seq<Row>)
    ensures IsPageOf(r, s.runs, skip, limit)
    ensures limit >= 0 ==> |r| <= limit
    ensures forall run :: run in r ==> run in s.runs
    ensures skip <= 0 && limit < 0 ==> r == s.runs
  {
    GetMulti(s, Runs, skip, limit)
  }

  /** Paging through all runs neither skips nor repeats one. */
  lemma ListRunsPagesJoin(s: Store, skip: int, k: int)
    requires skip >= 0 && k >= 0
    ensures ListRuns(s, skip, k) + ListRuns(s, skip + k, k) == ListRuns(s, skip, 2 * k)
  {
    PageOfUnique(ListRuns(s, skip, k), Page(s.runs, skip, k), s.runs, skip, k);
    PageOfUnique(ListRuns(s, skip + k, k), Page(s.runs, skip + k, k), s.runs, skip + k, k);
    PageOfUnique(ListRuns(s, skip, 2 * k), Page(s.runs, skip, 2 * k), s.runs, skip, 2 * k);
    ConsecutivePages(s.runs, skip, k);
  }

  /** `POST /test-runs/`: the body is inserted as it is; its `suite_id` is not looked up. */
  method CreateRun(db: Session, body: RunCreate, now: int) returns (r: Result<Row, ApiError>)
    requires db.Valid()
    modifies db
    ensures db.Valid()
    ensures Outcome(db.store, r) == CreateOutcome(old(db.store), Runs, DumpRunCreate(body), map[], now)
  {
    r := Crud.Create(db, Runs, DumpRunCreate(body), map[], now);
  }

  /**
   * The record a run creation body builds: the body's name and suite link,
   * status pending, not started, not completed.
   */
  lemma RunRecord(body: RunCreate, now: int)
    ensures Construct(RunModel, DumpRunCreate(body), now).Ok?
    ensures var rec := Construct(RunModel, DumpRunCreate(body), now).value;
      && rec[Name] == Str(body.name)
      && rec[SuiteId] == OptInt(body.suiteId)
      && rec[Status] == RunStatusValue(Pending)
      && rec[StartedAt] == Null
      && rec[CompletedAt] == Null
  {
    var d := DumpRunCreate(body);
    ConstructAt(RunModel, d, now, Name);
    ConstructAt(RunModel, d, now, SuiteId);
    ConstructAt(RunModel, d, now, Status);
    ConstructAt(RunModel, d, now, StartedAt);
    ConstructAt(RunModel, d, now, CompletedAt);
  }

  /** That record always satisfies the runs table's constraints, whatever the table holds. */
  lemma RunRecordAdmissible(rows: seq<Row>, body: RunCreate, now: int)
    ensures Construct(RunModel, DumpRunCreate(body), now).Ok?
    ensures Admissible(Runs, rows, NewId(rows), Construct(RunModel, DumpRunCreate(body), now).value)
  {
    var d := DumpRunCreate(body);
    DefsUnfold();
    forall c | c in RunModel.notNull
      ensures Supplied(RunModel, d, now, c)
    {
      if c == Name {
        assert c in d;
      }
    }
    ConstructNotNull(RunModel, d, now);
  }

  /**
   * Creating a run always succeeds, pending and not yet started, whatever
   * `suite_id` says: a suite that does not exist, or another user's, is
   * stored as given.
   */
  lemma CreateRunAlwaysSucceeds(s: Store, body: RunCreate, now: int)
    ensures var o := CreateOutcome(s, Runs, DumpRunCreate(body), map[], now);
      && o.result.Ok?
      && o.result.value.rec[Name] == Str(body.name)
      && o.result.value.rec[SuiteId] == OptInt(body.suiteId)
      && o.result.value.rec[Status] == RunStatusValue(Pending)
      && o.result.value.rec[StartedAt] == Null
      && o.result.value.rec[CompletedAt] == Null
      && o.store.suites == s.suites
  {
    DefsUnfold();
    RunRecord(body, now);
    RunRecordAdmissible(s.Tab(Runs), body, now);
    CreateDumpSucceeds(s, Runs, DumpRunCreate(body), now);
  }

  /** `GET /test-runs/{run_id}`. */
  function GetRun(s: Store, runId: int): (r: Result<Row, ApiError>)
    ensures r.Err? <==> runId !in Ids(s.runs)
    ensures r.Err? ==> r.error == RunNotFound
    ensures r.Ok? ==> r.value in s.runs && r.value.id == runId
  {
    match Get(s, Runs, runId)
    case None => Err(RunNotFound)
    case Some(run) => Ok(run)
  }

  /** `PATCH /test-runs/{run_id}` as a function of the store. */
  function UpdateRunOutcome(s: Store, runId: int, body: RunUpdate, now: int): (o: Outcome<Row>)
    ensures runId !in Ids(s.runs) ==> o == Outcome(s, Err(RunNotFound))
    ensures o.result.Err? ==> o.store == s
    ensures o.result.Ok? ==> GetRun(s, runId).Ok? && o.result.value.id == runId
  {
    match GetRun(s, runId)
    case Err(e) => Outcome(s, Err(e))
    case Ok(run) => UpdateOutcome(s, Runs, run, DumpRunUpdate(body), now)
  }

  /**
   * A successful run update keeps the run's suite link and creation
   * instant, and sets any status the caller sends, from any status.
   */
  lemma RunUpdateEffect(s: Store, runId: int, body: RunUpdate, now: int)
    requires UpdateRunOutcome(s, runId, body, now).result.Ok?
    ensures var before := GetRun(s, runId).value;
      var after := UpdateRunOutcome(s, runId, body, now).result.value;
      && (SuiteId in before.rec ==> SuiteId in after.rec && after.rec[SuiteId] == before.rec[SuiteId])
      && (CreatedAt in before.rec ==> CreatedAt in after.rec && after.rec[CreatedAt] == before.rec[CreatedAt])
      && (body.status.Set? ==> after.rec[Status] == OptRunStatus(body.status.value))
  {
    var before := GetRun(s, runId).value;
    var changes := DumpRunUpdate(body);
    UpdateRunIsUpdate(s, runId, body, now);
    if SuiteId in before.rec {
      UpdateKeepsColumn(s, Runs, before, changes, now, SuiteId);
    }
    if CreatedAt in before.rec {
      UpdateKeepsColumn(s, Runs, before, changes, now, CreatedAt);
    }
  }

  /** Past the lookup, the route is the generic update of the found row, whose preconditions hold. */
  lemma UpdateRunIsUpdate(s: Store, runId: int, body: RunUpdate, now: int)
    requires GetRun(s, runId).Ok?
    ensures GetRun(s, runId).value in s.Tab(Runs)
    ensures DumpRunUpdate(body).Keys <= Def(Runs).columns
    ensures UpdateRunOutcome(s, runId, body, now)
              == UpdateOutcome(s, Runs, GetRun(s, runId).value, DumpRunUpdate(body), now)
  {
  }

  /** In a valid database an update of an existing run succeeds exactly when it sets neither name nor status to null. */
  lemma RunUpdateSucceeds(s: Store, runId: int, body: RunUpdate, now: int)
    requires ValidTable(Runs, s.Tab(Runs))
    requires GetRun(s, runId).Ok?
    ensures UpdateRunOutcome(s, runId, body, now).result.Ok? <==>
              body.name != Set(None) && body.status != Set(None)
  {
    UpdateRunIsUpdate(s, runId, body, now);
    OnlyUsersHaveUniqueColumns(Runs);
    UpdateSucceedsIff(s, Runs, GetRun(s, runId).value, DumpRunUpdate(body), now);
    RunChangesNonNull(body);
  }

  /** Of a run's update fields, name and status are NOT NULL. */
  lemma RunChangesNonNull(body: RunUpdate)
    ensures NoNullIntoNotNull(Def(Runs), DumpRunUpdate(body)) <==> body.name != Set(None) && body.status != Set(None)
  {
    var d := DumpRunUpdate(body);
    DefsUnfold();
    if body.name == Set(None) {
      assert Name in d && Name in Def(Runs).notNull && d[Name] == Null;
    } else if body.status == Set(None) {
      assert Status in d && Status in Def(Runs).notNull && d[Status] == Null;
    }
  }

  method UpdateRun(db: Session, runId: int, body: RunUpdate, now: int) returns (r: Result<Row, ApiError>)
    requires db.Valid()
    modifies db
    ensures db.Valid()
    ensures Outcome(db.store, r) == UpdateRunOutcome(old(db.store), runId, body, now)
  {
    var found := GetRun(db.store, runId);
    if found.Err? {
      return Err(found.error);
    }
    UpdateRunIsUpdate(db.store, runId, body, now);
    r := Crud.Update(db, Runs, found.value, DumpRunUpdate(body), now);
  }

  /** `DELETE /test-runs/{run_id}` as a function of the store: the 404 exactly when nothing was deleted. */
  function DeleteRunOutcome(s: Store, runId: int, policy: RunLinkPolicy): (o: Outcome<()>)
    ensures o.store == Deleted(s, Runs, runId, policy)
    ensures o.result.Err? <==> runId !in Ids(s.runs)
    ensures o.result.Err? ==> o.store == s && o.result.error == RunNotFound
  {
    if Get(s, Runs, runId).None? then Outcome(s, Err(RunNotFound))
    else Outcome(Deleted(s, Runs, runId, policy), Ok(()))
  }

  method DeleteRun(db: Session, runId: int) returns (r: Result<(), ApiError>)
    requires db.Valid()
    modifies db
    ensures db.Valid()
    ensures Outcome(db.store, r) == DeleteRunOutcome(old(db.store), runId, db.policy)
  {
    var deleted := Crud.Delete(db, Runs, runId);
    if deleted.None? {
      return Err(RunNotFound);
    }
    r := Ok(());
  }

  /** After a delete the run is gone, with every result recorded in it, and no other table changed. */
  lemma DeletedRunIsGone(s: Store, runId: int, policy: RunLinkPolicy)
    requires runId in Ids(s.runs)
    ensures var o := DeleteRunOutcome(s, runId, policy);
      && GetRun(o.store, runId) == Err(RunNotFound)
      && (forall res :: res in o.store.results <==> res in s.results && !RefersTo(res, RunId, {runId}))
      && o.store.users == s.users && o.store.suites == s.suites && o.store.cases == s.cases
  {
    RunDeleteCascade(s, runId, policy);
  }
}
