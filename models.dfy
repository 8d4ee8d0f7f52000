/**
 * The five ORM models (the files under app/models) as column declarations.
 *
 * A stored row is a map from column to value, the way the generic CRUD
 * code sees it: `model_dump()` dictionaries, `self.model(**data)` and
 * `setattr(db_obj, field, value)`. Each model declares which columns it
 * has, which are NOT NULL, which have a default at insert, which are
 * refreshed on every update, and which are unique. The row id is kept
 * beside the record (see Tables), not inside it.
 */
module Models {
  import opened Wrappers
  import Security
  import Errors

  /** app/models/test_case.py:10-14. */
  datatype Priority = Low | Medium | High | Critical

  /** app/models/test_case.py:17-22. */
  datatype Severity = Trivial | Minor | Major | Critical | Blocker

  /** app/models/test_case.py:25-28. */
  datatype CaseStatus = Draft | Active | Deprecated

  /** app/models/test_run.py:10-14. */
  datatype RunStatus = Pending | Running | Completed | Aborted

  /** app/models/test_result.py:10-15. */
  datatype ResultStatus = Passed | Failed | Skipped | Blocked | Error

  /** Every column of every table, apart from the primary keys. */
  datatype Column =
    | Email | HashedPassword | IsActive | CreatedAt | UpdatedAt
    | Name | Description | OwnerId
    | Title | Steps | ExpectedResult | Priority | Severity | Status | SuiteId
    | StartedAt | CompletedAt
    | Notes | DurationMs | ExecutedAt | RunId | TestCaseId

  /** A column value; `Null` is SQL NULL (Python `None`). Instants are integer seconds. */
  datatype Value =
    | Null
    | Int(i: int)
    | Str(s: string)
    | Bool(b: bool)
    | Instant(t: int)
    | Hash(h: Security.PasswordHash)
    | PriorityValue(priority: Priority)
    | SeverityValue(severity: Severity)
    | CaseStatusValue(caseStatus: CaseStatus)
    | RunStatusValue(runStatus: RunStatus)
    | ResultStatusValue(resultStatus: ResultStatus)

  /** The attributes of one ORM object, or the dictionary `model_dump()` returns. */
  type Record = map<Column, Value>

  /** The `default=` of a column: a constant, or `datetime.now(timezone.utc)`. */
  datatype Default = Fixed(v: Value) | Now

  /**
   * One model's table declaration: its columns, those declared NOT NULL
   * (explicitly, or by a non-Optional `Mapped[...]`), the insert defaults,
   * the columns with `onupdate=now`, and the unique ones.
   */
  datatype ModelDef = ModelDef(
    columns: set<Column>,
    notNull: set<Column>,
    defaults: map<Column, Default>,
    refreshedOnUpdate: set<Column>,
    unique: set<Column>)

  /** app/models/user.py:9-18. */
  const UserModel := ModelDef(
    {Email, HashedPassword, IsActive, CreatedAt},
    {Email, HashedPassword, IsActive, CreatedAt},
    map[IsActive := Fixed(Bool(true)), CreatedAt := Now],
    {},
    {Email})

  /** app/models/test_suite.py:9-23. */
  const SuiteModel := ModelDef(
    {Name, Description, OwnerId, CreatedAt, UpdatedAt},
    {Name, OwnerId, CreatedAt, UpdatedAt},
    map[CreatedAt := Now, UpdatedAt := Now],
    {UpdatedAt},
    {})

  /** app/models/test_case.py:31-50. */
  const CaseModel := ModelDef(
    {Title, Description, Steps, ExpectedResult, Priority, Severity, Status, SuiteId, CreatedAt, UpdatedAt},
    {Title, Priority, Severity, Status, SuiteId, CreatedAt, UpdatedAt},
    map[Priority := Fixed(PriorityValue(Medium)), Severity := Fixed(SeverityValue(Major)),
        Status := Fixed(CaseStatusValue(Draft)), CreatedAt := Now, UpdatedAt := Now],
    {UpdatedAt},
    {})

  /** app/models/test_run.py:17-32. */
  const RunModel := ModelDef(
    {Name, Status, SuiteId, StartedAt, CompletedAt, CreatedAt},
    {Name, Status, CreatedAt},
    map[Status := Fixed(RunStatusValue(Pending)), CreatedAt := Now],
    {},
    {})

  /** app/models/test_result.py:18-34. */
  const ResultModel := ModelDef(
    {Status, Notes, DurationMs, ExecutedAt, RunId, TestCaseId},
    {Status, ExecutedAt, RunId, TestCaseId},
    map[ExecutedAt := Now],
    {},
    {})

  function DefaultValue(d: Default, now: int): Value
  {
    match d
    case Fixed(v) => v
    case Now => Instant(now)
  }

  /**
   * `self.model(**data)` followed by the insert: a keyword that is not a
   * column is a TypeError. The insert leaves out every attribute that is
   * None, so a column the data leaves out or sets to NULL takes its default,
   * or stays NULL when it has none.
   */
  function Construct(m: ModelDef, data: Record, now: int): (r: Result<Record, Errors.Cause>)
    ensures r.Err? <==> !(data.Keys <= m.columns)
    ensures r.Ok? ==> r.value.Keys == m.columns
    ensures r.Ok? ==> forall c :: c in data && data[c] != Null ==> r.value[c] == data[c]
    ensures r.Ok? ==> forall c :: c in m.columns && (c !in data || data[c] == Null) ==>
                        r.value[c] == if c in m.defaults then DefaultValue(m.defaults[c], now) else Null
  {
    if !(data.Keys <= m.columns) then Err(Errors.TypeError)
    else Ok(map c | c in m.columns ::
              if c in data && data[c] != Null then data[c]
              else if c in m.defaults then DefaultValue(m.defaults[c], now)
              else Null)
  }

  /** The value `Construct` gives one column, for proofs that need only that column. */
  lemma ConstructAt(m: ModelDef, data: Record, now: int, c: Column)
    requires data.Keys <= m.columns && c in m.columns
    ensures Construct(m, data, now).Ok? && c in Construct(m, data, now).value
    ensures Construct(m, data, now).value[c] ==
              if c in data && data[c] != Null then data[c]
              else if c in m.defaults then DefaultValue(m.defaults[c], now)
              else Null
  {
  }

  /** Laying no injected fields over a record leaves it as it was. */
  lemma MergeNothing(d: Record)
    ensures d + map[] == d
  {
  }

  /** Every NOT NULL column holds a value. */
  predicate NotNullHolds(m: ModelDef, rec: Record)
  {
    forall c :: c in m.notNull ==> c in rec && rec[c] != Null
  }

  /** The insert puts a value in column `c`: the data sends one, or the column's default is one. */
  predicate Supplied(m: ModelDef, data: Record, now: int, c: Column)
  {
    (c in data && data[c] != Null) || (c in m.defaults && DefaultValue(m.defaults[c], now) != Null)
  }

  /**
   * A constructed record violates no NOT NULL constraint exactly when every
   * NOT NULL column is supplied, by the data or by its default.
   */
  lemma ConstructNotNull(m: ModelDef, data: Record, now: int)
    requires data.Keys <= m.columns && m.notNull <= m.columns
    ensures NotNullHolds(m, Construct(m, data, now).value) <==>
              forall c :: c in m.notNull ==> Supplied(m, data, now, c)
  {
    var rec := Construct(m, data, now).value;
    forall c | c in m.notNull
      ensures rec[c] != Null <==> Supplied(m, data, now, c)
    {
      ConstructAt(m, data, now, c);
    }
  }
}
