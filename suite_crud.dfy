/** `CRUDTestSuite` (app/crud/test_suite.py): the owner-filtered listing. */
module SuiteCrud {
  import opened Models
  import opened Tables
  import opened Stores
  import Crud

  /**
   * `get_multi_by_owner(db, owner_id, skip, limit)`: suites of that owner
   * only, at most `limit` of them; without paging, every one of them.
   */
  function GetMultiByOwner(s: Store, ownerId: int, skip: int, limit: int): (r: seq<Row>)
    ensures IsPageOf(r, WhereEq(s.suites, OwnerId, Int(ownerId)), skip, limit)
    ensures limit >= 0 ==> |r| <= limit
    ensures forall row :: row in r ==> row in s.suites && Matches(row, OwnerId, Int(ownerId))
    ensures skip <= 0 && limit < 0 ==>
              forall row :: row in s.suites && Matches(row, OwnerId, Int(ownerId)) ==> row in r
  {
    Crud.ListWhere(s, Suites, OwnerId, Int(ownerId), skip, limit)
  }
}
