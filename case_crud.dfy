/** `CRUDTestCase` (app/crud/test_case.py): the suite-filtered listing. */
module CaseCrud {
  import opened Models
  import opened Tables
  import opened Stores
  import Crud

  /**
   * `get_multi_by_suite(db, suite_id, skip, limit)`: cases of that suite
   * only, at most `limit` of them; without paging, every one of them.
   */
  function GetMultiBySuite(s: Store, suiteId: int, skip: int, limit: int): (r: seq<Row>)
    ensures IsPageOf(r, WhereEq(s.cases, SuiteId, Int(suiteId)), skip, limit)
    ensures limit >= 0 ==> |r| <= limit
    ensures forall row :: row in r ==> row in s.cases && Matches(row, SuiteId, Int(suiteId))
    ensures skip <= 0 && limit < 0 ==>
              forall row :: row in s.cases && Matches(row, SuiteId, Int(suiteId)) ==> row in r
  {
    Crud.ListWhere(s, Cases, SuiteId, Int(suiteId), skip, limit)
  }
}
