/**
 * The delete cascades declared on the relationships of the models:
 * a user takes its suites along (app/models/user.py), a suite its cases
 * (app/models/test_suite.py), a case its results (app/models/test_case.py)
 * and a run its results (app/models/test_run.py). A suite does not take
 * its runs along; what happens to their link is the `RunLinkPolicy`.
 */
module Cascade {
  import opened Models
  import opened Tables
  import opened Stores

  /** The row's column `col` holds the key of one of `ids`. */
  predicate RefersTo(row: Row, col: Column, ids: set<int>)
  {
    col in row.rec && row.rec[col].Int? && row.rec[col].i in ids
  }

  /** The keys of the rows whose `col` points into `ids`: the children the ORM loads and deletes. */
  function Referring(rows: seq<Row>, col: Column, ids: set<int>): set<int>
  {
    set row | row in rows && RefersTo(row, col, ids) :: row.id
  }

  /** The table without the rows whose key is in `ids`. */
  function Without(rows: seq<Row>, ids: set<int>): (r: seq<Row>)
    ensures forall row :: row in r <==> row in rows && row.id !in ids
    ensures Ascending(rows) ==> Ascending(r)
  {
    Where(rows, (row: Row) => row.id !in ids)
  }

  /** The table without the rows whose `col` points into `ids`. */
  function WithoutReferring(rows: seq<Row>, col: Column, ids: set<int>): (r: seq<Row>)
    ensures forall row :: row in r <==> row in rows && !RefersTo(row, col, ids)
    ensures Ascending(rows) ==> Ascending(r)
  {
    Where(rows, (row: Row) => !RefersTo(row, col, ids))
  }

  /** Every row whose `col` points into `ids` gets NULL there; no row is removed. */
  function Unlink(rows: seq<Row>, col: Column, ids: set<int>): (r: seq<Row>)
    ensures |r| == |rows|
    ensures forall i :: 0 <= i < |rows| ==> r[i].id == rows[i].id && r[i].rec.Keys == rows[i].rec.Keys
    ensures forall i :: 0 <= i < |rows| ==> !RefersTo(r[i], col, ids)
    ensures forall i :: 0 <= i < |rows| && !RefersTo(rows[i], col, ids) ==> r[i] == rows[i]
    ensures forall i :: 0 <= i < |rows| && RefersTo(rows[i], col, ids) ==>
              r[i].rec[col] == Null && forall c :: c in rows[i].rec && c != col ==> r[i].rec[c] == rows[i].rec[c]
  {
    seq(|rows|, i requires 0 <= i < |rows| =>
      if RefersTo(rows[i], col, ids) then Row(rows[i].id, rows[i].rec[col := Null]) else rows[i])
  }

  /** Deleting the suites `ids`: their cases, those cases' results, and their runs' links by `policy`. */
  function DeleteSuites(s: Store, ids: set<int>, policy: RunLinkPolicy): Store
  {
    var cases := Referring(s.cases, SuiteId, ids);
    Store(s.users,
          Without(s.suites, ids),
          WithoutReferring(s.cases, SuiteId, ids),
          if policy == NullOutLink then Unlink(s.runs, SuiteId, ids) else s.runs,
          WithoutReferring(s.results, TestCaseId, cases))
  }

  /**
   * `db.delete(obj); db.commit()` for the row `id` of model `m`, with every
   * cascade the relationships declare. An absent key changes nothing.
   */
  function Deleted(s: Store, m: Model, id: int, policy: RunLinkPolicy): (r: Store)
    ensures id !in Ids(r.Tab(m))
    ensures id !in Ids(s.Tab(m)) ==> r == s
    ensures forall row :: row in s.Tab(m) && row.id != id ==> row in r.Tab(m)
    ensures forall row :: row in r.Tab(m) ==> row in s.Tab(m)
  {
    if id !in Ids(s.Tab(m)) then s
    else
      match m
      case Results => s.(results := Without(s.results, {id}))
      case Runs => s.(runs := Without(s.runs, {id}), results := WithoutReferring(s.results, RunId, {id}))
      case Cases => s.(cases := Without(s.cases, {id}), results := WithoutReferring(s.results, TestCaseId, {id}))
      case Suites => DeleteSuites(s, {id}, policy)
      case Users =>
        var t := DeleteSuites(s, Referring(s.suites, OwnerId, {id}), policy);
        t.(users := Without(t.users, {id}))
  }

  /** A second delete of the same key finds nothing and changes nothing. */
  lemma DeleteTwice(s: Store, m: Model, id: int, policy: RunLinkPolicy)
    ensures Deleted(Deleted(s, m, id, policy), m, id, policy) == Deleted(s, m, id, policy)
  {
  }

  /**
   * Deleting a suite removes its cases and every result of those cases,
   * deletes no run, and leaves users and the other suites' cases alone. The
   * runs keep their link to the deleted suite or lose it, by `policy`.
   */
  lemma SuiteDeleteCascade(s: Store, id: int, policy: RunLinkPolicy)
    requires id in Ids(s.suites)
    ensures var r := Deleted(s, Suites, id, policy);
      && r.users == s.users
      && (forall c :: c in r.cases <==> c in s.cases && !RefersTo(c, SuiteId, {id}))
      && (forall res :: res in r.results <==>
            res in s.results && !RefersTo(res, TestCaseId, Referring(s.cases, SuiteId, {id})))
      && Ids(r.runs) == Ids(s.runs)
      && (policy == KeepDangling ==> r.runs == s.runs)
      && (policy == NullOutLink ==> forall run :: run in r.runs ==> !RefersTo(run, SuiteId, {id}))
  {
    var r := Deleted(s, Suites, id, policy);
    if policy == NullOutLink {
      UnlinkKeepsIds(s.runs, SuiteId, {id});
      forall run | run in r.runs
        ensures !RefersTo(run, SuiteId, {id})
      {
        var i :| 0 <= i < |r.runs| && r.runs[i] == run;
      }
    }
  }

  /** Deleting a case removes exactly its results and touches no other table. */
  lemma CaseDeleteCascade(s: Store, id: int, policy: RunLinkPolicy)
    requires id in Ids(s.cases)
    ensures var r := Deleted(s, Cases, id, policy);
      && r.users == s.users && r.suites == s.suites && r.runs == s.runs
      && (forall res :: res in r.results <==> res in s.results && !RefersTo(res, TestCaseId, {id}))
  {
  }

  /** Deleting a run removes exactly its results and touches no other table. */
  lemma RunDeleteCascade(s: Store, id: int, policy: RunLinkPolicy)
    requires id in Ids(s.runs)
    ensures var r := Deleted(s, Runs, id, policy);
      && r.users == s.users && r.suites == s.suites && r.cases == s.cases
      && (forall res :: res in r.results <==> res in s.results && !RefersTo(res, RunId, {id}))
  {
  }

  /**
   * Deleting a user removes that user and exactly the suites it owns,
   * the cases in those suites and the results of those cases; every other
   * user, suite, case and result stays, and no run is deleted.
   */
  lemma UserDeleteCascade(s: Store, id: int, policy: RunLinkPolicy)
    requires id in Ids(s.users)
    requires Ascending(s.suites)
    ensures var r := Deleted(s, Users, id, policy);
      var owned := Referring(s.suites, OwnerId, {id});
      && (forall u :: u in r.users <==> u in s.users && u.id != id)
      && (forall suite :: suite in r.suites <==> suite in s.suites && !RefersTo(suite, OwnerId, {id}))
      && (forall c :: c in r.cases <==> c in s.cases && !RefersTo(c, SuiteId, owned))
      && (forall res :: res in r.results <==>
            res in s.results && !RefersTo(res, TestCaseId, Referring(s.cases, SuiteId, owned)))
      && Ids(r.runs) == Ids(s.runs)
      && (policy == KeepDangling ==> r.runs == s.runs)
  {
    var owned := Referring(s.suites, OwnerId, {id});
    var t := DeleteSuites(s, owned, policy);
    var r := Deleted(s, Users, id, policy);
    assert r == t.(users := Without(t.users, {id}));
    forall suite | suite in s.suites
      ensures suite.id in owned <==> RefersTo(suite, OwnerId, {id})
    {
      if suite.id in owned {
        var other :| other in s.suites && RefersTo(other, OwnerId, {id}) && other.id == suite.id;
        SameKeySameRow(s.suites, other, suite);
      }
    }
    if policy == NullOutLink {
      UnlinkKeepsIds(s.runs, SuiteId, owned);
    }
  }

  lemma UnlinkKeepsIds(rows: seq<Row>, col: Column, ids: set<int>)
    ensures Ids(Unlink(rows, col, ids)) == Ids(rows)
  {
    var r := Unlink(rows, col, ids);
    forall x | x in Ids(rows) ensures x in Ids(r) {
      var row :| row in rows && row.id == x;
      var i :| 0 <= i < |rows| && rows[i] == row;
      assert r[i].id == x;
    }
    forall x | x in Ids(r) ensures x in Ids(rows) {
      var row :| row in r && row.id == x;
      var i :| 0 <= i < |r| && r[i] == row;
      assert rows[i].id == x;
    }
  }

  /** Removing rows keeps a table valid. */
  lemma WithoutValid(m: Model, rows: seq<Row>, ids: set<int>)
    requires ValidTable(m, rows)
    ensures ValidTable(m, Without(rows, ids))
  {
    WhereValid(rows, (row: Row) => row.id !in ids);
  }

  lemma WithoutReferringValid(m: Model, rows: seq<Row>, col: Column, ids: set<int>)
    requires ValidTable(m, rows)
    ensures ValidTable(m, WithoutReferring(rows, col, ids))
  {
    WhereValid(rows, (row: Row) => !RefersTo(row, col, ids));
  }

  /** Nulling out a run's optional suite link keeps the runs table valid. */
  lemma UnlinkValid(rows: seq<Row>, ids: set<int>)
    requires ValidTable(Runs, rows)
    ensures ValidTable(Runs, Unlink(rows, SuiteId, ids))
  {
    var r := Unlink(rows, SuiteId, ids);
    assert ValidRows(r) by {
      forall i, j | 0 <= i < j < |r| ensures r[i].id < r[j].id {
        assert r[i].id == rows[i].id && r[j].id == rows[j].id;
      }
      forall i | 0 <= i < |r| ensures r[i].id > 0 {
        assert r[i].id == rows[i].id;
      }
    }
    forall row | row in r
      ensures WellFormed(Runs, row.rec)
    {
      var i :| 0 <= i < |r| && r[i] == row;
      assert rows[i] in rows;
      UnlinkedRunWellFormed(rows[i], r[i], ids);
    }
    assert RunModel.unique == {};
  }

  lemma UnlinkedRunWellFormed(before: Row, after: Row, ids: set<int>)
    requires WellFormed(Runs, before.rec)
    requires after.rec.Keys == before.rec.Keys
    requires forall c :: c in before.rec && c != SuiteId ==> after.rec[c] == before.rec[c]
    ensures WellFormed(Runs, after.rec)
  {
    forall c | c in RunModel.notNull
      ensures c in after.rec && after.rec[c] != Null
    {
      assert c != SuiteId;
    }
  }

  /** Every delete, with its cascades, keeps the store valid. */
  lemma DeletedValid(s: Store, m: Model, id: int, policy: RunLinkPolicy)
    requires ValidStore(s)
    ensures ValidStore(Deleted(s, m, id, policy))
  {
    var r := Deleted(s, m, id, policy);
    if id in Ids(s.Tab(m)) {
      forall k ensures ValidTable(k, r.Tab(k)) {
        assert ValidTable(k, s.Tab(k));
        match m
        case Results =>
          if k == Results { WithoutValid(k, s.results, {id}); }
        case Runs =>
          if k == Runs { WithoutValid(k, s.runs, {id}); }
          if k == Results { WithoutReferringValid(k, s.results, RunId, {id}); }
        case Cases =>
          if k == Cases { WithoutValid(k, s.cases, {id}); }
          if k == Results { WithoutReferringValid(k, s.results, TestCaseId, {id}); }
        case Suites =>
          SuitesValid(s, {id}, policy, k);
        case Users =>
          var owned := Referring(s.suites, OwnerId, {id});
          SuitesValid(s, owned, policy, k);
          if k == Users { WithoutValid(k, s.users, {id}); }
      }
    }
  }

  lemma SuitesValid(s: Store, ids: set<int>, policy: RunLinkPolicy, k: Model)
    requires ValidStore(s)
    ensures ValidTable(k, DeleteSuites(s, ids, policy).Tab(k))
  {
    assert ValidTable(k, s.Tab(k));
    var cases := Referring(s.cases, SuiteId, ids);
    match k
    case Users =>
    case Suites => WithoutValid(k, s.suites, ids);
    case Cases => WithoutReferringValid(k, s.cases, SuiteId, ids);
    case Runs => if policy == NullOutLink { UnlinkValid(s.runs, ids); }
    case Results => WithoutReferringValid(k, s.results, TestCaseId, cases);
  }
}
