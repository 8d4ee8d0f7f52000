/** `CRUDTestResult` (app/crud/test_result.py): the run-filtered listing. */
module ResultCrud {
  import opened Models
  import opened Tables
  import opened Stores
  import Crud

  /**
   * `get_multi_by_run(db, run_id, skip, limit)`: results of that run only,
   * at most `limit` of them; without paging, every one of them.
   */
  function GetMultiByRun(s: Store, runId: int, skip: int, limit: int): (r: seq<Row>)
    ensures IsPageOf(r, WhereEq(s.results, RunId, Int(runId)), skip, limit)
    ensures limit >= 0 ==> |r| <= limit
    ensures forall row :: row in r ==> row in s.results && Matches(row, RunId, Int(runId))
    ensures skip <= 0 && limit < 0 ==>
              forall row :: row in s.results && Matches(row, RunId, Int(runId)) ==> row in r
  {
    Crud.ListWhere(s, Results, RunId, Int(runId), skip, limit)
  }
}
