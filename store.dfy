/**
 * The database the application works on: five tables, one per ORM model,
 * and the integrity rules a commit enforces (NOT NULL and UNIQUE).
 * Foreign keys are not enforced: SQLite leaves them off unless a connection
 * turns them on, and the application never does, so a row may name a
 * parent that does not exist.
 */
module Stores {
  import opened Models
  import opened Tables

  /** The five mapped classes. */
  datatype Model = Users | Suites | Cases | Runs | Results

  /** The declaration of each model's table. */
  function Def(m: Model): ModelDef
  {
    match m
    case Users => UserModel
    case Suites => SuiteModel
    case Cases => CaseModel
    case Runs => RunModel
    case Results => ResultModel
  }

  /** Each model's table, named by its declaration. */
  lemma DefsUnfold()
    ensures Def(Users) == UserModel && Def(Suites) == SuiteModel && Def(Cases) == CaseModel
    ensures Def(Runs) == RunModel && Def(Results) == ResultModel
  {
  }

  /** Every `onupdate` column is a column of its table. */
  lemma RefreshedAreColumns(m: Model)
    ensures Def(m).refreshedOnUpdate <= Def(m).columns
  {
  }

  /** The users' email is the only unique column of the schema. */
  lemma OnlyUsersHaveUniqueColumns(m: Model)
    ensures Def(m).unique == {} <==> m != Users
  {
    if m == Users {
      assert Email in Def(m).unique;
    }
  }

  datatype Store = Store(users: seq<Row>, suites: seq<Row>, cases: seq<Row>, runs: seq<Row>, results: seq<Row>)
  {
    /** The rows of model `m`'s table. */
    function Tab(m: Model): seq<Row>
    {
      match m
      case Users => users
      case Suites => suites
      case Cases => cases
      case Runs => runs
      case Results => results
    }

    /** The store with model `m`'s table replaced by `rows` and the other four untouched. */
    function With(m: Model, rows: seq<Row>): (s: Store)
      ensures s.Tab(m) == rows
      ensures forall other :: other != m ==> s.Tab(other) == Tab(other)
    {
      match m
      case Users => this.(users := rows)
      case Suites => this.(suites := rows)
      case Cases => this.(cases := rows)
      case Runs => this.(runs := rows)
      case Results => this.(results := rows)
    }
  }

  const Empty := Store([], [], [], [], [])

  /** Two records hold the same non-NULL value in a UNIQUE column. */
  predicate Clash(d: ModelDef, a: Record, b: Record)
  {
    exists c :: c in d.unique && c in a && c in b && a[c] != Null && a[c] == b[c]
  }

  /** A stored record has exactly its model's columns and no NULL in a NOT NULL one. */
  predicate WellFormed(m: Model, rec: Record)
  {
    rec.Keys == Def(m).columns && NotNullHolds(Def(m), rec)
  }

  /** What the database guarantees of one table after every successful commit. */
  predicate ValidTable(m: Model, rows: seq<Row>)
  {
    && ValidRows(rows)
    && (forall row :: row in rows ==> WellFormed(m, row.rec))
    && (forall a, b :: a in rows && b in rows && a.id != b.id ==> !Clash(Def(m), a.rec, b.rec))
  }

  predicate ValidStore(s: Store)
  {
    forall m :: ValidTable(m, s.Tab(m))
  }

  /**
   * The commit of row `id` with record `rec` into `rows` goes through: no
   * NOT NULL column is NULL and no other row holds the same unique value.
   */
  predicate Admissible(m: Model, rows: seq<Row>, id: int, rec: Record)
  {
    NotNullHolds(Def(m), rec) && forall row :: row in rows && row.id != id ==> !Clash(Def(m), row.rec, rec)
  }

  /**
   * What becomes of `test_runs.suite_id` when its suite is deleted. The
   * relationship declares no cascade; the ORM's own default nulls the link
   * out, while a bulk delete or another mapper configuration would keep it.
   */
  datatype RunLinkPolicy = NullOutLink | KeepDangling

  lemma EmptyValid()
    ensures ValidStore(Empty)
  {
  }
}
