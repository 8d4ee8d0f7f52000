/** `CRUDTestRun` (app/crud/test_run.py): the suite-filtered listing. */
module RunCrud {
  import opened Models
  import opened Tables
  import opened Stores
  import Crud

  /**
   * `get_multi_by_suite(db, suite_id, skip, limit)` on runs: runs linked to
   * that suite only. `suite_id = ?` is never true of NULL, so a run without
   * a suite is never listed.
   */
  function GetMultiBySuite(s: Store, suiteId: int, skip: int, limit: int): (r: seq<Row>)
    ensures IsPageOf(r, WhereEq(s.runs, SuiteId, Int(suiteId)), skip, limit)
    ensures limit >= 0 ==> |r| <= limit
    ensures forall row :: row in r ==> row in s.runs && Matches(row, SuiteId, Int(suiteId))
    ensures forall row :: row in r ==> SuiteId in row.rec && row.rec[SuiteId] != Null
    ensures skip <= 0 && limit < 0 ==>
              forall row :: row in s.runs && Matches(row, SuiteId, Int(suiteId)) ==> row in r
  {
    assert s.Tab(Runs) == s.runs;
    Crud.ListWhere(s, Runs, SuiteId, Int(suiteId), skip, limit)
  }
}
