/**
 * Request and response schemas (the files under app/schemas).
 *
 * Inputs arrive already parsed into typed values, with two exceptions kept
 * raw because the source rejects them with 422: the enum fields of a new
 * test case and the status of a new test result. `Dump*` functions are
 * `model_dump()` (and, for updates, `model_dump(exclude_unset=True)`): they
 * give the dictionaries the generic CRUD code merges into rows.
 */
module Schemas {
  import opened Wrappers
  import opened Models
  import opened Errors

  function OptStr(o: Option<string>): Value
  {
    if o.Some? then Str(o.value) else Null
  }

  function OptInt(o: Option<int>): Value
  {
    if o.Some? then Int(o.value) else Null
  }

  function OptInstant(o: Option<int>): Value
  {
    if o.Some? then Instant(o.value) else Null
  }

  /** Adds `column` to a `model_dump(exclude_unset=True)` dictionary when the caller set it. */
  function Put(d: Record, column: Column, p: Patch<Value>): (r: Record)
    ensures p.Unset? ==> r == d
    ensures p.Set? ==> r == d[column := p.value]
  {
    if p.Set? then d[column := p.value] else d
  }

  function PatchMap<T>(p: Patch<T>, f: T -> Value): Patch<Value>
  {
    if p.Set? then Set(f(p.value)) else Unset
  }

  // ---------------------------------------------------------------------
  // Users (app/schemas/user.py)
  // ---------------------------------------------------------------------

  /** `UserCreate`: both fields are required. */
  datatype UserCreate = UserCreate(email: string, password: string)

  /** `UserRead`: the id and the columns a client may see. */
  datatype UserRead = UserRead(id: int, fields: Record)

  const UserReadColumns: set<Column> := {Email, IsActive, CreatedAt}

  /** Serialises a stored user through `UserRead`. */
  function ToUserRead(id: int, rec: Record): (r: UserRead)
    ensures r.id == id
    ensures r.fields.Keys == UserReadColumns * rec.Keys
    ensures HashedPassword !in r.fields
    ensures forall c :: c in r.fields ==> r.fields[c] == rec[c]
  {
    UserRead(id, map c | c in UserReadColumns && c in rec :: rec[c])
  }

  /**
   * The read view does not depend on the stored hash: two users that differ
   * only in their password serialise identically.
   */
  lemma UserReadIgnoresHash(id: int, rec: Record, h: Security.PasswordHash)
    ensures ToUserRead(id, rec[HashedPassword := Hash(h)]) == ToUserRead(id, rec)
  {
    var a := ToUserRead(id, rec[HashedPassword := Hash(h)]);
    var b := ToUserRead(id, rec);
    assert a.fields.Keys == b.fields.Keys;
  }

  // ---------------------------------------------------------------------
  // Suites (app/schemas/test_suite.py)
  // ---------------------------------------------------------------------

  /** `TestSuiteCreate`: a name and an optional description; no owner. */
  datatype SuiteCreate = SuiteCreate(name: string, description: Option<string>)

  /** `TestSuiteUpdate`: only the name and the description. */
  datatype SuiteUpdate = SuiteUpdate(name: Patch<Option<string>>, description: Patch<Option<string>>)

  function DumpSuiteCreate(s: SuiteCreate): (d: Record)
    ensures d.Keys == {Name, Description} && OwnerId !in d
    ensures d[Name] == Str(s.name) && d[Description] == OptStr(s.description)
  {
    map[Name := Str(s.name), Description := OptStr(s.description)]
  }

  function DumpSuiteUpdate(u: SuiteUpdate): (d: Record)
    ensures d.Keys <= {Name, Description}
    ensures Name in d <==> u.name.Set?
    ensures Description in d <==> u.description.Set?
    ensures u.name.Set? ==> d[Name] == OptStr(u.name.value)
    ensures u.description.Set? ==> d[Description] == OptStr(u.description.value)
  {
    Put(Put(map[], Name, PatchMap(u.name, OptStr)), Description, PatchMap(u.description, OptStr))
  }

  // ---------------------------------------------------------------------
  // Cases (app/schemas/test_case.py)
  // ---------------------------------------------------------------------

  /** `TestCaseCreate` after validation. */
  datatype CaseCreate = CaseCreate(
    title: string, description: Option<string>, steps: Option<string>, expectedResult: Option<string>,
    priority: Priority, severity: Severity, status: CaseStatus, suiteId: int)

  /**
   * A test-case creation body before validation: the enum fields are the
   * strings the client sent, `None` when the client left them out.
   */
  datatype CaseCreateBody = CaseCreateBody(
    title: string, description: Option<string>, steps: Option<string>, expectedResult: Option<string>,
    priority: Option<string>, severity: Option<string>, status: Option<string>, suiteId: int)

  /** `TestCaseUpdate`: every field optional; there is no `suite_id`. */
  datatype CaseUpdate = CaseUpdate(
    title: Patch<Option<string>>, description: Patch<Option<string>>, steps: Patch<Option<string>>,
    expectedResult: Patch<Option<string>>, priority: Patch<Option<Priority>>,
    severity: Patch<Option<Severity>>, status: Patch<Option<CaseStatus>>)

  function ParsePriority(s: string): (r: Option<Priority>)
    ensures r.Some? <==> s in {"low", "medium", "high", "critical"}
  {
    if s == "low" then Some(Low)
    else if s == "medium" then Some(Medium)
    else if s == "high" then Some(High)
    else if s == "critical" then Some(Priority.Critical)
    else None
  }

  function ParseSeverity(s: string): (r: Option<Severity>)
    ensures r.Some? <==> s in {"trivial", "minor", "major", "critical", "blocker"}
  {
    if s == "trivial" then Some(Trivial)
    else if s == "minor" then Some(Minor)
    else if s == "major" then Some(Major)
    else if s == "critical" then Some(Severity.Critical)
    else if s == "blocker" then Some(Blocker)
    else None
  }

  function ParseCaseStatus(s: string): (r: Option<CaseStatus>)
    ensures r.Some? <==> s in {"draft", "active", "deprecated"}
  {
    if s == "draft" then Some(Draft)
    else if s == "active" then Some(Active)
    else if s == "deprecated" then Some(Deprecated)
    else None
  }

  function ParseResultStatus(s: string): (r: Option<ResultStatus>)
    ensures r.Some? <==> s in {"passed", "failed", "skipped", "blocked", "error"}
  {
    if s == "passed" then Some(Passed)
    else if s == "failed" then Some(Failed)
    else if s == "skipped" then Some(Skipped)
    else if s == "blocked" then Some(Blocked)
    else if s == "error" then Some(Error)
    else None
  }

  /** The validation error for an out-of-set enum value in body field `field`. */
  function EnumIssue(field: string, allowed: string): ValidationIssue
  {
    ValidationIssue([Key("body"), Key(field)], "Input should be " + allowed)
  }

  /** An absent enum field takes its default; a present one must be one of the allowed strings. */
  function FieldIssues<T>(raw: Option<string>, parse: string -> Option<T>, field: string, allowed: string): seq<ValidationIssue>
  {
    if raw.Some? && parse(raw.value).None? then [EnumIssue(field, allowed)] else []
  }

  function WithDefault<T>(raw: Option<string>, parse: string -> Option<T>, default: T): T
  {
    if raw.Some? && parse(raw.value).Some? then parse(raw.value).value else default
  }

  /**
   * `TestCaseCreate` validation: defaults medium, major and draft for the
   * enum fields left out, and one 422 issue per out-of-set value, in the
   * schema's field order.
   */
  function ParseCaseCreate(b: CaseCreateBody): (r: Result<CaseCreate, seq<ValidationIssue>>)
    ensures r.Ok? <==> (b.priority.None? || ParsePriority(b.priority.value).Some?)
                       && (b.severity.None? || ParseSeverity(b.severity.value).Some?)
                       && (b.status.None? || ParseCaseStatus(b.status.value).Some?)
    ensures r.Ok? ==> r.value.title == b.title && r.value.suiteId == b.suiteId
                      && r.value.description == b.description && r.value.steps == b.steps
                      && r.value.expectedResult == b.expectedResult
    ensures r.Ok? && b.priority.None? ==> r.value.priority == Medium
    ensures r.Ok? && b.severity.None? ==> r.value.severity == Major
    ensures r.Ok? && b.status.None? ==> r.value.status == Draft
    ensures r.Ok? && b.priority.Some? ==> ParsePriority(b.priority.value) == Some(r.value.priority)
    ensures r.Ok? && b.severity.Some? ==> ParseSeverity(b.severity.value) == Some(r.value.severity)
    ensures r.Ok? && b.status.Some? ==> ParseCaseStatus(b.status.value) == Some(r.value.status)
    ensures r.Err? ==> r.error != []
  {
    var issues :=
      FieldIssues(b.priority, ParsePriority, "priority", "'low', 'medium', 'high' or 'critical'")
      + FieldIssues(b.severity, ParseSeverity, "severity", "'trivial', 'minor', 'major', 'critical' or 'blocker'")
      + FieldIssues(b.status, ParseCaseStatus, "status", "'draft', 'active' or 'deprecated'");
    if issues != [] then Err(issues)
    else Ok(CaseCreate(b.title, b.description, b.steps, b.expectedResult,
                       WithDefault(b.priority, ParsePriority, Medium),
                       WithDefault(b.severity, ParseSeverity, Major),
                       WithDefault(b.status, ParseCaseStatus, Draft),
                       b.suiteId))
  }

  function DumpCaseCreate(c: CaseCreate): (d: Record)
    ensures d.Keys == CaseModel.columns - {CreatedAt, UpdatedAt}
    ensures d[Title] == Str(c.title) && d[SuiteId] == Int(c.suiteId)
    ensures d[Priority] == PriorityValue(c.priority) && d[Severity] == SeverityValue(c.severity)
    ensures d[Status] == CaseStatusValue(c.status)
  {
    map[Title := Str(c.title), Description := OptStr(c.description), Steps := OptStr(c.steps),
        ExpectedResult := OptStr(c.expectedResult), Priority := PriorityValue(c.priority),
        Severity := SeverityValue(c.severity), Status := CaseStatusValue(c.status),
        SuiteId := Int(c.suiteId)]
  }

  function OptPriority(o: Option<Priority>): Value
  {
    if o.Some? then PriorityValue(o.value) else Null
  }

  function OptSeverity(o: Option<Severity>): Value
  {
    if o.Some? then SeverityValue(o.value) else Null
  }

  function OptCaseStatus(o: Option<CaseStatus>): Value
  {
    if o.Some? then CaseStatusValue(o.value) else Null
  }

  /** The changes of a case update: exactly the fields the caller set; never `suite_id`. */
  function DumpCaseUpdate(u: CaseUpdate): (d: Record)
    ensures d.Keys <= {Title, Description, Steps, ExpectedResult, Priority, Severity, Status}
    ensures SuiteId !in d && CreatedAt !in d && UpdatedAt !in d
    ensures Title in d <==> u.title.Set?
    ensures Description in d <==> u.description.Set?
    ensures Steps in d <==> u.steps.Set?
    ensures ExpectedResult in d <==> u.expectedResult.Set?
    ensures Priority in d <==> u.priority.Set?
    ensures Severity in d <==> u.severity.Set?
    ensures Status in d <==> u.status.Set?
    ensures u.title.Set? ==> d[Title] == OptStr(u.title.value)
    ensures u.description.Set? ==> d[Description] == OptStr(u.description.value)
    ensures u.steps.Set? ==> d[Steps] == OptStr(u.steps.value)
    ensures u.expectedResult.Set? ==> d[ExpectedResult] == OptStr(u.expectedResult.value)
    ensures u.priority.Set? ==> d[Priority] == OptPriority(u.priority.value)
    ensures u.severity.Set? ==> d[Severity] == OptSeverity(u.severity.value)
    ensures u.status.Set? ==> d[Status] == OptCaseStatus(u.status.value)
  {
    var d := Put(map[], Title, PatchMap(u.title, OptStr));
    var d := Put(d, Description, PatchMap(u.description, OptStr));
    var d := Put(d, Steps, PatchMap(u.steps, OptStr));
    var d := Put(d, ExpectedResult, PatchMap(u.expectedResult, OptStr));
    var d := Put(d, Priority, PatchMap(u.priority, OptPriority));
    var d := Put(d, Severity, PatchMap(u.severity, OptSeverity));
    Put(d, Status, PatchMap(u.status, OptCaseStatus))
  }

  // ---------------------------------------------------------------------
  // Runs (app/schemas/test_run.py)
  // ---------------------------------------------------------------------

  /** `TestRunCreate`: a name and an optional suite; the status cannot be chosen. */
  datatype RunCreate = RunCreate(name: string, suiteId: Option<int>)

  /** `TestRunUpdate`: no `suite_id`; any status, with no transition rule. */
  datatype RunUpdate = RunUpdate(
    name: Patch<Option<string>>, status: Patch<Option<RunStatus>>,
    startedAt: Patch<Option<int>>, completedAt: Patch<Option<int>>)

  function DumpRunCreate(r: RunCreate): (d: Record)
    ensures d.Keys == {Name, SuiteId}
    ensures d[Name] == Str(r.name) && d[SuiteId] == OptInt(r.suiteId)
  {
    map[Name := Str(r.name), SuiteId := OptInt(r.suiteId)]
  }

  function OptRunStatus(o: Option<RunStatus>): Value
  {
    if o.Some? then RunStatusValue(o.value) else Null
  }

  function DumpRunUpdate(u: RunUpdate): (d: Record)
    ensures d.Keys <= {Name, Status, StartedAt, CompletedAt}
    ensures SuiteId !in d
    ensures Name in d <==> u.name.Set?
    ensures Status in d <==> u.status.Set?
    ensures StartedAt in d <==> u.startedAt.Set?
    ensures CompletedAt in d <==> u.completedAt.Set?
    ensures u.name.Set? ==> d[Name] == OptStr(u.name.value)
    ensures u.status.Set? ==> d[Status] == OptRunStatus(u.status.value)
    ensures u.startedAt.Set? ==> d[StartedAt] == OptInstant(u.startedAt.value)
    ensures u.completedAt.Set? ==> d[CompletedAt] == OptInstant(u.completedAt.value)
  {
    var d := Put(map[], Name, PatchMap(u.name, OptStr));
    var d := Put(d, Status, PatchMap(u.status, OptRunStatus));
    var d := Put(d, StartedAt, PatchMap(u.startedAt, OptInstant));
    Put(d, CompletedAt, PatchMap(u.completedAt, OptInstant))
  }

  // ---------------------------------------------------------------------
  // Results (app/schemas/test_result.py)
  // ---------------------------------------------------------------------

  /** `TestResultCreate` after validation. */
  datatype ResultCreate = ResultCreate(
    runId: int, testCaseId: int, status: ResultStatus, notes: Option<string>, durationMs: Option<int>)

  /** A test-result creation body before validation: `status` as sent. */
  datatype ResultCreateBody = ResultCreateBody(
    runId: int, testCaseId: int, status: string, notes: Option<string>, durationMs: Option<int>)

  /** `TestResultUpdate`: the references cannot be re-pointed. */
  datatype ResultUpdate = ResultUpdate(
    status: Patch<Option<ResultStatus>>, notes: Patch<Option<string>>, durationMs: Patch<Option<int>>)

  /** `TestResultCreate` validation: `status` is required and must be in the set. */
  function ParseResultCreate(b: ResultCreateBody): (r: Result<ResultCreate, seq<ValidationIssue>>)
    ensures r.Ok? <==> b.status in {"passed", "failed", "skipped", "blocked", "error"}
    ensures r.Ok? ==> r.value.runId == b.runId && r.value.testCaseId == b.testCaseId
                      && r.value.notes == b.notes && r.value.durationMs == b.durationMs
                      && ParseResultStatus(b.status) == Some(r.value.status)
    ensures r.Err? ==> r.error == [EnumIssue("status", "'passed', 'failed', 'skipped', 'blocked' or 'error'")]
  {
    match ParseResultStatus(b.status)
    case None => Err([EnumIssue("status", "'passed', 'failed', 'skipped', 'blocked' or 'error'")])
    case Some(st) => Ok(ResultCreate(b.runId, b.testCaseId, st, b.notes, b.durationMs))
  }

  function DumpResultCreate(r: ResultCreate): (d: Record)
    ensures d.Keys == {RunId, TestCaseId, Status, Notes, DurationMs}
    ensures d[RunId] == Int(r.runId) && d[TestCaseId] == Int(r.testCaseId)
    ensures d[Status] == ResultStatusValue(r.status)
    ensures d[Notes] == OptStr(r.notes) && d[DurationMs] == OptInt(r.durationMs)
  {
    map[RunId := Int(r.runId), TestCaseId := Int(r.testCaseId), Status := ResultStatusValue(r.status),
        Notes := OptStr(r.notes), DurationMs := OptInt(r.durationMs)]
  }

  function OptResultStatus(o: Option<ResultStatus>): Value
  {
    if o.Some? then ResultStatusValue(o.value) else Null
  }

  function DumpResultUpdate(u: ResultUpdate): (d: Record)
    ensures d.Keys <= {Status, Notes, DurationMs}
    ensures RunId !in d && TestCaseId !in d
    ensures Status in d <==> u.status.Set?
    ensures Notes in d <==> u.notes.Set?
    ensures DurationMs in d <==> u.durationMs.Set?
    ensures u.status.Set? ==> d[Status] == OptResultStatus(u.status.value)
    ensures u.notes.Set? ==> d[Notes] == OptStr(u.notes.value)
    ensures u.durationMs.Set? ==> d[DurationMs] == OptInt(u.durationMs.value)
  {
    var d := Put(map[], Status, PatchMap(u.status, OptResultStatus));
    var d := Put(d, Notes, PatchMap(u.notes, OptStr));
    Put(d, DurationMs, PatchMap(u.durationMs, OptInt))
  }
}
