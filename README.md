# QA Test Management API — a Dafny model of its core

This project models the core of a small FastAPI service, the QA Test Management API. Users register and log in with a bearer token. They own **test suites**, each suite holds **test cases**, and **test runs** collect **test results** that point at a run and a case. The service stores everything through SQLAlchemy in SQLite.

What the model covers:

- **Tables.** The five ORM models become column declarations. These are the NOT NULL columns, the defaults at insert, the `onupdate` timestamps and the unique email (`Models`). A table is a sequence of rows in ascending key order (`Tables`), and the database is a value holding the five tables (`Stores`).
- **Generic CRUD.** `Crud` has `get`, the paged `get_multi`, `create`, the partial `update` and `delete`. A `Session` class holds the store, and its create, update and delete methods reassign it. Each method is proved equal to a pure outcome function, and the properties are proved about those functions.
- **Filtered listings.** `SuiteCrud`, `CaseCrud`, `RunCrud` and `ResultCrud` model the listings filtered by owner, suite or run.
- **Cascade delete.** `Cascade` models the ORM cascade on delete. Deleting a user removes their suites. Deleting a suite removes its cases. Deleting a case or a run removes its results.
- **Security.** Password hashing, JWT creation and decoding, and the decimal `str`/`int` conversion of the `sub` claim (`Security`).
- **Current user.** `get_current_user` resolves the bearer token (`Dependencies`).
- **Routers.** The five routers:
  - `AuthRoutes` (register, login, me);
  - `SuiteRoutes` and `CaseRoutes`, which are scoped to the caller's own suites;
  - `RunRoutes` and `ResultRoutes`, which are open to every authenticated caller.
- **Error handling.** The three exception handlers with their single error envelope, and the `" → "` join of validation locations (`Errors`).
- **Schemas.** The request schemas with their `model_dump` / `exclude_unset` dictionaries (`Schemas`).

The HTTP layer is reduced to values:

- A route is a function of the store, its inputs and the resolved user. It returns an `Outcome` holding the new store and either the response value or an `ApiError`.
- `Errors.Respond` turns an `ApiError` into the response its handler sends, using the corrected catch-all handler for unhandled errors.
- The clock (`now`, in integer seconds) and the bcrypt salt are parameters.

## Model

| member | source | states |
|---|---|---|
| Models.Construct | app/crud/base.py:29-33 | Building a model object from the dumped dictionary fails with a TypeError exactly when a key is not a column. Otherwise every column is present. A key sent with a value keeps it. The insert leaves out attributes that are None, so a column left out or sent as NULL gets its default (or the current instant), or NULL when it has none. |
| Models.ConstructNotNull | app/crud/base.py:29-33 | A built record leaves no NOT NULL column NULL exactly when every such column is supplied, either by a sent value or by a default that is not NULL. |
| Security.HashPassword | app/core/security.py:9-11 | The stored hash verifies the password it was made from, and no other password. |
| Security.IntToString | app/core/security.py:27 | `str(subject)` is a non-empty decimal text that starts with a digit exactly when the subject is non-negative. |
| Security.ParseInt | app/dependencies.py:47 | Over the strings the model covers, `int(user_id)` succeeds exactly on an optional sign followed by at least one ASCII digit. Its value is the digits' decimal value, negated after a `-` and unchanged after a `+` or with no sign. |
| Security.ParseIntRoundTrip | app/dependencies.py:47 | `int(str(i)) == i` for every integer id, so the subject written into a token reads back as the same id. |
| Security.Decode | app/core/security.py:36 | `jwt.decode` accepts a token exactly when it was signed with this key and an allowed algorithm and its `exp` has not passed. It then returns the claims unchanged. |
| Security.DecodeToken | app/core/security.py:31-40 | Returns the `sub` claim exactly when the token is signed with the configured key and algorithm, is unexpired and has a `sub`. A verified token without `sub` is an error. |
| Security.TokenRoundTrip | app/core/security.py:19-28 | A token created for a subject decodes to `str(subject)` until issue time plus its lifetime, and is `Expired` afterwards. |
| Security.DefaultTokenLivesOneHour | app/config.py:15-17 | With the default settings a token with no explicit lifetime is accepted 3600 seconds after issue and rejected one second later. |
| Security.ZeroDeltaMeansDefault | app/core/security.py:24-26 | A zero `expires_delta` is falsy, so it gives the same token as passing none: the configured default lifetime. |
| Security.ForeignTokenRejected | app/core/security.py:36 | A token signed with another key or another algorithm never decodes. |
| Errors.ErrorEnvelope | app/core/exceptions.py:11-16 | The envelope carries the status and the message, and carries `details` exactly when details were given and are non-empty. |
| Errors.HttpExceptionHandler | app/core/exceptions.py:19-29 | The response keeps the exception's status code in both the HTTP status and the envelope, the detail is the message, and there are no details. |
| Errors.FieldErrors | app/core/exceptions.py:37-40 | One field error per validation issue, in order. Each has the issue's location joined with " → " and its message. |
| Errors.ValidationExceptionHandler | app/core/exceptions.py:32-45 | Always 422 with "Request validation failed". The field errors appear as details exactly when there are issues. |
| Errors.JoinPathRoundTrip | app/core/exceptions.py:38 | Splitting a joined location at " → " gives back the original components when none contains the arrow, so the join loses no information. |
| Errors.UnhandledExceptionHandlerAsWritten | app/core/exceptions.py:48-58 | As written, the handler raises NameError whenever `status` is not bound in the module. It returns the 500 envelope only when `status` is bound. |
| Errors.UnhandledHandlerRaisesNameError | app/core/exceptions.py:56 | With the module's actual imports, `status` is unbound, so the catch-all handler itself raises NameError. |
| Errors.UnhandledExceptionHandler | app/core/exceptions.py:48-58 | The intended catch-all response: status 500, the fixed generic message, no details. |
| Errors.UnhandledResponseLeaksNothing | app/core/exceptions.py:49-53 | The 500 response is the same whatever the exception said: no internal detail reaches the client. |
| Errors.Respond | main.py:48-50 | An HTTPException goes to its handler and keeps its status and detail, and a validation error is 422. Anything else is 500 with the generic envelope of the corrected catch-all handler (see "## Findings"). The envelope status always equals the HTTP status. |
| Tables.Find | app/crud/base.py:22-23 | A primary-key lookup finds a row with that key exactly when the key is in the table. |
| Tables.FindUnique | app/crud/base.py:22-23 | In a table with ascending keys, looking up a row's key returns that very row. |
| Tables.SameKeySameRow | app/models/user.py:12 | The primary key is unique: two rows of a valid table with the same key are the same row. |
| Tables.NewId | app/crud/base.py:32-34 | The key the insert assigns is positive in a valid table, and above every key already present, so it is fresh. |
| Tables.AppendValid | app/crud/base.py:32-34 | Appending a row under the new key keeps keys positive and ascending, and adds exactly that key. |
| Tables.Where | app/crud/test_suite.py:12-14 | Filtering keeps exactly the rows satisfying the predicate, never grows the table, and keeps key order. |
| Tables.WhereValid | app/crud/test_suite.py:12-14 | A filtered valid table is still a valid table. |
| Tables.WhereEq | app/crud/test_suite.py:14 | `filter(col == v)` keeps exactly the rows whose column holds v, in key order. |
| Tables.WhereEqSnoc | app/crud/user.py:10-11 | Filtering a table with one more row gives the old result plus that row exactly when the row matches. |
| Tables.Offset | app/crud/base.py:26 | The start position lies within the table and equals `skip` whenever `skip` is in range. |
| Tables.Page | app/crud/base.py:25-26 | `offset(skip).limit(limit)` is exactly the page `IsPageOf` describes: the consecutive rows from the offset on. It returns at most `limit` of them, exactly `limit` when that many remain, and all the rest when `limit` is negative or large. |
| Tables.PageOfUnique | app/crud/base.py:25-26 | The list, the offset and the limit determine the page: two lists that are both that page are equal. |
| Tables.PageWithin | app/crud/base.py:25-26 | Every row on a page is a row of the table. |
| Tables.PageAll | app/crud/base.py:25-26 | A non-positive skip with a negative limit pages the whole table. |
| Tables.ConsecutivePages | app/crud/base.py:25-26 | Two consecutive pages of size k together are the page of size 2k, so paging neither skips nor repeats rows. |
| Tables.Replace | app/crud/base.py:39-42 | Writing a record back in place changes only the row with that key. Keys, order and length are kept. |
| Tables.ReplaceFind | app/crud/base.py:42 | After the write a lookup of the key returns the new record, and every other row is still there. |
| Stores.EmptyValid | app/models/__init__.py:2-6 | The empty database satisfies every table's constraints. |
| Stores.OnlyUsersHaveUniqueColumns | app/models/user.py:13 | The users' email is the schema's only unique column: a model has no unique column exactly when it is not the user model. |
| Crud.Session.constructor | tests/conftest.py:38-43 | The database `Base.metadata.create_all` sets up on a fresh file has every table empty, and that database meets every table constraint. |
| Crud.Get | app/crud/base.py:22-23 | `get` returns the row with that key from that model's table, or nothing exactly when the key is absent. |
| Crud.GetMulti | app/crud/base.py:25-26 | Exactly the page of the table at that offset and limit, in key order: never more than `limit` rows, all from the table. It is the whole table when unbounded. |
| Crud.ListWhere | app/crud/test_suite.py:9-18 | Exactly the page, at that offset and limit, of the rows whose column holds the value, in key order. Every listed row matches, and with no bounds every matching row is listed. |
| Crud.CreateOutcome | app/crud/base.py:28-35 | Create succeeds exactly when every key is a column and the new record meets NOT NULL and uniqueness. On success the row gets a fresh key and is appended, and no other table changes. Every non-NULL injected value is stored, and so is every non-NULL dumped value it does not override. On failure nothing changes: a TypeError for an unknown key, otherwise an IntegrityError. |
| Crud.AppendKeepsValidTable | app/crud/base.py:32-34 | Inserting an admissible, well-formed record keeps the table valid. |
| Crud.CreateKeepsValid | app/crud/base.py:28-35 | Create keeps the database valid, and the created row is afterwards what `get` returns for its new key. |
| Crud.Create | app/crud/base.py:28-35 | The session's new state and the result are those of CreateOutcome, and the session stays valid. |
| Crud.UpdatedRecord | app/crud/base.py:37-42 | After update the provided fields hold their new values and the other fields keep theirs. `updated_at` is refreshed to now only when some value actually changed, and nothing changes otherwise. |
| Crud.OverlayChanges | app/crud/base.py:39-41 | Overlaying the changes alters the record exactly when some provided value differs from the stored one. |
| Crud.UpdateOutcome | app/crud/base.py:37-43 | The commit succeeds exactly when the updated record is admissible (no NULL in a NOT NULL column, no unique clash). A successful update stores the updated record in place under the same key and leaves other tables alone. Writing NULL into a NOT NULL column always fails with an IntegrityError and changes nothing. |
| Crud.ReplaceKeepsValidTable | app/crud/base.py:41 | Writing an admissible, well-formed record back in place keeps the table valid. |
| Crud.ReplaceKeepsNoClash | app/crud/base.py:41 | Writing back a record that clashes with no other row keeps every unique column unique across the table. |
| Crud.UpdateKeepsValid | app/crud/base.py:37-43 | Update keeps the database valid. After success `get` returns the updated row, and every other row of the table is unchanged. |
| Crud.UpdateSucceedsIff | app/crud/base.py:37-43 | In a valid table without unique columns, an update commits exactly when it writes no NULL into a NOT NULL column. |
| Crud.UpdateKeepsColumn | app/crud/base.py:38-40 | A field the caller did not provide, and that is not refreshed on update, keeps its value. |
| Crud.EmptyUpdateChangesNothing | app/crud/base.py:38-43 | An update with no provided fields returns the object unchanged and leaves the database as it was. |
| Crud.SetAttrs | app/crud/base.py:39-40 | The `setattr` loop leaves every provided field at its new value and every other field as it was, with no field added or lost. |
| Crud.FlushedAttrs | app/crud/base.py:39-42 | The loop followed by the flush's `onupdate` gives exactly the updated record. |
| Crud.Update | app/crud/base.py:37-43 | The session's new state and the result are those of UpdateOutcome, and the session stays valid. |
| Crud.Delete | app/crud/base.py:45-50 | Delete returns the row `get` would have found (nothing when absent), and the new database is the cascaded delete. |
| Crud.SecondDeleteFindsNothing | app/crud/base.py:45-50 | After a delete the key is gone, and deleting it again changes nothing. |
| Cascade.Without | app/crud/base.py:48 | Removing keys keeps exactly the rows with other keys, in order. |
| Cascade.WithoutReferring | app/models/test_suite.py:26-28 | Removing the children of deleted parents keeps exactly the rows that do not reference them, in order. |
| Cascade.Unlink | app/models/test_suite.py:29-31 | Without a delete cascade the ORM nulls the child's reference: every row keeps its key and fields, references to the deleted parents become NULL, and other rows are untouched. |
| Cascade.Deleted | app/crud/base.py:45-50 | The deleted key is gone from its table. Every other row of that table stays, nothing is added, and deleting an absent key changes nothing. |
| Cascade.DeleteTwice | app/crud/base.py:45-50 | Deleting the same key twice is the same as deleting it once. |
| Cascade.SuiteDeleteCascade | app/models/test_suite.py:26-31 | Deleting a suite deletes exactly its cases and their results. Runs survive: their link is nulled (or kept dangling, by policy). Users are untouched. |
| Cascade.CaseDeleteCascade | app/models/test_case.py:53-55 | Deleting a case deletes exactly its results and touches no other table. |
| Cascade.RunDeleteCascade | app/models/test_run.py:35-37 | Deleting a run deletes exactly its results and touches no other table. |
| Cascade.UserDeleteCascade | app/models/user.py:21-23 | Deleting a user removes exactly that user, the suites it owns, the cases in those suites and those cases' results. Every other user, suite, case and result stays. No run is deleted, and under `KeepDangling` the runs are unchanged. |
| Cascade.WithoutValid | app/crud/base.py:48-49 | Removing rows keeps a table valid. |
| Cascade.WithoutReferringValid | app/models/test_suite.py:26-28 | Removing the children of deleted parents keeps a table valid. |
| Cascade.UnlinkValid | app/models/test_run.py:25 | Nulling run links keeps the runs table valid, since `suite_id` is nullable. |
| Cascade.DeletedValid | app/crud/base.py:45-50 | Any delete, with its cascade, keeps the whole database valid. |
| Cascade.SuitesValid | app/models/test_suite.py:26-31 | Deleting a set of suites keeps every table valid. |
| SuiteCrud.GetMultiByOwner | app/crud/test_suite.py:9-18 | Exactly the page, at that offset and limit, of the suites with that owner in key order. Unbounded, it lists them all. |
| CaseCrud.GetMultiBySuite | app/crud/test_case.py:9-18 | Exactly the page, at that offset and limit, of the cases of that suite in key order. Unbounded, it lists them all. |
| RunCrud.GetMultiBySuite | app/crud/test_run.py:9-18 | Exactly the page, at that offset and limit, of the runs linked to that suite in key order. Unbounded, it lists them all. |
| ResultCrud.GetMultiByRun | app/crud/test_result.py:9-18 | Exactly the page, at that offset and limit, of the results of that run in key order. Unbounded, it lists them all. |
| UserCrud.GetByEmail | app/crud/user.py:10-11 | Finds a user with exactly that email, and finds none exactly when no user has it. |
| UserCrud.Authenticate | app/crud/user.py:23-27 | Returns the user with that email exactly when such a user exists and the password verifies against the stored hash. |
| UserCrud.NewUserFields | app/crud/user.py:14-17 | The new user's fields are the email and a hash that verifies exactly the given password. The plaintext password is never stored. |
| UserCrud.Create | app/crud/user.py:13-21 | The session's new state and result are the generic create of those fields, and the session stays valid. |
| UserCrud.CreateWithNewEmail | app/crud/user.py:13-21 | With an unused email, creation succeeds and appends one active user with that email, whose password check accepts exactly the given password. No other table changes. |
| UserCrud.NewUserRecord | app/models/user.py:13-15 | The record built for a new user carries its email and `is_active` true by default, and its hash verifies exactly the given password. |
| UserCrud.NewUserAdmissible | app/models/user.py:13-15 | Under an email no user has, the new record breaks neither NOT NULL nor the unique email. |
| UserCrud.NewUserNotNull | app/models/user.py:13-18 | The new user's record holds a value in every NOT NULL column: email and hash from the body, `is_active` and `created_at` from their defaults. |
| UserCrud.LoginAfterCreate | app/crud/user.py:23-27 | A just-created user authenticates with the password it was created with. |
| Schemas.ToUserRead | app/schemas/user.py:11-17 | The read view has the user's key and only the id, email, is_active and created_at fields. It copies their values and never includes the password hash. |
| Schemas.UserReadIgnoresHash | app/schemas/user.py:11-17 | Changing the stored hash does not change the read view. |
| Schemas.DumpSuiteCreate | app/schemas/test_suite.py:6-8 | The dump has exactly name and description, with the body's values, and no owner. |
| Schemas.DumpSuiteUpdate | app/schemas/test_suite.py:11-13 | `exclude_unset`: a field is in the dump exactly when the caller sent it, with the sent value (null included). |
| Schemas.ParsePriority | app/models/test_case.py:10-14 | A priority is accepted exactly when it is one of the four enum strings. |
| Schemas.ParseSeverity | app/models/test_case.py:17-22 | A severity is accepted exactly when it is one of the five enum strings. |
| Schemas.ParseCaseStatus | app/models/test_case.py:25-28 | A case status is accepted exactly when it is one of the three enum strings. |
| Schemas.ParseResultStatus | app/models/test_result.py:10-15 | A result status is accepted exactly when it is one of the five enum strings. |
| Schemas.ParseCaseCreate | app/schemas/test_case.py:8-16 | The body validates exactly when each enum field it sends is valid. The other fields pass through, and omitted enums default to medium, major and draft. A failure lists at least one issue. |
| Schemas.DumpCaseCreate | app/schemas/test_case.py:8-16 | The dump holds every case column except the timestamps, with the body's title, suite and enum values. |
| Schemas.DumpCaseUpdate | app/schemas/test_case.py:19-26 | A field is in the dump exactly when the caller sent it, and then holds the sent value, null included, for every one of the seven fields. The suite and the timestamps can never be in it. |
| Schemas.DumpRunCreate | app/schemas/test_run.py:8-10 | The dump has exactly name and suite link, with the body's values. |
| Schemas.DumpRunUpdate | app/schemas/test_run.py:13-17 | A field is in the dump exactly when the caller sent it, and then holds the sent value, null included, for name, status, started_at and completed_at. The suite link can never be in it. |
| Schemas.ParseResultCreate | app/schemas/test_result.py:8-13 | The body validates exactly when its status is one of the five result statuses. Otherwise the one issue names the allowed values. The other fields pass through. |
| Schemas.DumpResultCreate | app/schemas/test_result.py:8-13 | The dump holds exactly the run, the case, the status, the notes and the duration, with the body's values. |
| Schemas.DumpResultUpdate | app/schemas/test_result.py:16-19 | A field is in the dump exactly when the caller sent it, and then holds the sent value, null included, for status, notes and duration_ms. The run and the case can never be in it. |
| Dependencies.CurrentUser | app/dependencies.py:29-50 | No token gives "Not authenticated". A token that does not decode gives the credentials error. A `sub` that is not an integer gives a 500 ValueError; a `sub` outside the 64-bit range is not modelled (see "## Left out"). A resolved user exists, is active, and has the `sub` as its key. |
| Dependencies.ResolvesIffActiveUser | app/dependencies.py:47-50 | A valid token resolves exactly when an active user has its subject as key. Otherwise the answer is the credentials error. |
| Dependencies.IssuedTokenResolves | app/dependencies.py:29-50 | A token issued to an active user resolves to that user until it expires, and to the credentials error afterwards. |
| Dependencies.InactiveOrDeletedUserRejected | app/dependencies.py:48-49 | A token for a key with no user, or with an inactive one, is always refused with the credentials error. |
| Dependencies.DeletedUserRejected | app/dependencies.py:47-49 | After a user is deleted, every token issued to them is refused. |
| AuthRoutes.RegisterOutcome | app/routers/auth.py:15-19 | A taken email is refused with 400 and nothing is written. Otherwise exactly one active user with that email is appended under a fresh key and nothing else changes. The response never carries the hash. |
| AuthRoutes.Register | app/routers/auth.py:15-19 | The session's new state and result are those of RegisterOutcome, and the session stays valid. |
| AuthRoutes.RegisterTwiceRefused | app/routers/auth.py:17-18 | A second registration with the same email is refused and writes nothing. |
| AuthRoutes.Login | app/routers/auth.py:22-32 | Login fails, always with the same 401, exactly when authentication fails. On success the token type is "bearer" and the token decodes to the user's key. |
| AuthRoutes.LoginFailuresAlike | app/routers/auth.py:26-31 | An unknown email and a wrong password give identical responses. |
| AuthRoutes.RegisteredUserLogsIn | app/routers/auth.py:15-32 | A newly registered user can log in exactly with the password it registered with. |
| AuthRoutes.Me | app/routers/auth.py:35-37 | `me` succeeds exactly when the current user resolves. It returns that user's read view, without the hash, and otherwise passes on the dependency's error. |
| AuthRoutes.LoginThenMe | app/routers/auth.py:22-37 | A login token presented at once to `me` yields the user when active. It yields the credentials error when inactive, since login does not check activity. |
| SuiteRoutes.ListSuites | app/routers/test_suites.py:12-19 | Exactly the page, at that offset and limit, of the caller's suites in key order: at most `limit` suites, all owned by the caller. Unbounded, it lists all of them. |
| SuiteRoutes.ListSuitesPagesJoin | app/routers/test_suites.py:12-19 | Two consecutive pages of the caller's suites of size k together are the page of size 2k, so paging neither skips nor repeats a suite. |
| SuiteRoutes.GetSuite | app/routers/test_suites.py:31-40 | Succeeds exactly when the suite exists and the caller owns it. Otherwise it is the one 404. |
| SuiteRoutes.SuiteVisibleIffOwned | app/routers/test_suites.py:36-39 | In a valid database a suite is visible to a user exactly when a suite with that key is theirs. |
| SuiteRoutes.MissingAndForeignAlike | app/routers/test_suites.py:36-39 | A missing suite and somebody else's suite give the identical response. |
| SuiteRoutes.CreateSuite | app/routers/test_suites.py:22-28 | The session's new state and result are the generic create with `owner_id` injected from the caller. |
| SuiteRoutes.SuiteRecord | app/routers/test_suites.py:28 | A suite built from a body and the caller's id has the caller as owner and the body's name and description. |
| SuiteRoutes.SuiteRecordNotNull | app/models/test_suite.py:13-15 | A suite built from a body and the caller's id leaves neither the name nor the owner NULL. |
| SuiteRoutes.SuiteRecordAdmissible | app/models/test_suite.py:13-15 | That record always meets the suites table's constraints. |
| SuiteRoutes.CreatedSuiteIsOwned | app/routers/test_suites.py:22-28 | Creating a suite always succeeds. It belongs to the caller, carries the body's name and description, and is readable by the caller afterwards. |
| SuiteRoutes.CreatedSuiteListed | app/routers/test_suites.py:12-28 | After a create, the caller's unpaged listing is the old listing plus the new suite. |
| SuiteRoutes.UpdateSuiteOutcome | app/routers/test_suites.py:43-53 | A suite that is missing or not the caller's gives the 404 and changes nothing. A failure never changes the database, and success updates the requested suite. |
| SuiteRoutes.SuiteUpdateEffect | app/routers/test_suites.py:43-53 | A successful update keeps the owner and the creation instant. It writes the fields sent and keeps those left out. |
| SuiteRoutes.UpdateSuite | app/routers/test_suites.py:43-53 | The session's new state and result are those of UpdateSuiteOutcome. |
| SuiteRoutes.NullNameRefused | app/routers/test_suites.py:52 | Sending `name: null` never succeeds and never changes the database. |
| SuiteRoutes.SuiteUpdateSucceeds | app/routers/test_suites.py:43-53 | In a valid suites table, the owner's update succeeds exactly when it does not set the name to null. |
| SuiteRoutes.SuiteChangesNonNull | app/models/test_suite.py:13-15 | A suite update writes no NULL into a NOT NULL column exactly when the name is not sent as null. |
| SuiteRoutes.DeleteSuiteOutcome | app/routers/test_suites.py:56-65 | Not the caller's, or missing: the 404, nothing changes. Otherwise the suite is deleted with its cascade. |
| SuiteRoutes.DeleteSuite | app/routers/test_suites.py:56-65 | The session's new state and result are those of DeleteSuiteOutcome. |
| SuiteRoutes.DeletedSuiteIsGone | app/routers/test_suites.py:56-65 | After the owner deletes a suite it is a 404 for every user, and no case refers to it any longer. |
| CaseRoutes.ParentSuite | app/models/test_case.py:42 | The key of the suite the case belongs to. |
| CaseRoutes.ListCases | app/routers/test_cases.py:20-29 | Fails with the suite 404 exactly when the suite is not the caller's. Otherwise it lists exactly the page, at that offset and limit, of that suite's cases in key order: at most `limit` of them, all of them when unbounded. |
| CaseRoutes.ListedCasesAreTheCallers | app/routers/test_cases.py:20-29 | Every listed case lies in a suite the caller owns. |
| CaseRoutes.CreateCaseOutcome | app/routers/test_cases.py:32-39 | Creating in a suite that is not the caller's is the suite 404 and writes nothing. A created case lies in the requested suite, and the database changes only on success. |
| CaseRoutes.CreateCase | app/routers/test_cases.py:32-39 | The session's new state and result are those of CreateCaseOutcome. |
| CaseRoutes.CaseRecordAdmissible | app/models/test_case.py:31-50 | A dumped case body always builds a record that meets the table's constraints. |
| CaseRoutes.CreatedCaseFields | app/routers/test_cases.py:32-39 | In the caller's own suite, creation succeeds with the body's title and enum values. |
| CaseRoutes.CreatedCaseReadable | app/routers/test_cases.py:32-52 | A case just created is readable by its creator. |
| CaseRoutes.SuiteLookupFrame | app/routers/test_cases.py:12-17 | The suite access check reads the suites table only: two stores with the same suites give the same answer. |
| CaseRoutes.CaseFoundInOwnedSuite | app/routers/test_cases.py:42-52 | A stored case whose suite the caller owns is returned exactly as stored. |
| CaseRoutes.GetCase | app/routers/test_cases.py:42-52 | A missing case gives the case 404. A case in another user's suite gives the suite 404. Success means the case exists and its suite is the caller's. |
| CaseRoutes.CaseVisibleIffSuiteOwned | app/routers/test_cases.py:42-52 | In a valid database a case is visible exactly when it lies in a suite the caller owns. |
| CaseRoutes.UpdateCaseOutcome | app/routers/test_cases.py:55-66 | A failed lookup or access check is passed on and changes nothing. Success updates the requested case. |
| CaseRoutes.CaseUpdateStaysInSuite | app/routers/test_cases.py:55-66 | An update never moves a case to another suite: it stays in the caller's suite and keeps its creation instant. |
| CaseRoutes.CaseUpdateSucceeds | app/routers/test_cases.py:55-66 | In a valid cases table, an update of a visible case succeeds exactly when it sets none of title, priority, severity and status to null. |
| CaseRoutes.CaseChangesNonNull | app/models/test_case.py:35-42 | A case update writes no NULL into a NOT NULL column exactly when none of title, priority, severity and status is sent as null. |
| CaseRoutes.UpdateCase | app/routers/test_cases.py:55-66 | The session's new state and result are those of UpdateCaseOutcome. |
| CaseRoutes.DeleteCaseOutcome | app/routers/test_cases.py:69-79 | A failed lookup or access check is passed on and changes nothing. Otherwise the case is deleted with its results. |
| CaseRoutes.DeleteCase | app/routers/test_cases.py:69-79 | The session's new state and result are those of DeleteCaseOutcome. |
| CaseRoutes.DeletedCaseIsGone | app/routers/test_cases.py:69-79 | After a delete the case is a 404 for everyone, and exactly its results are gone. |
| RunRoutes.ListRuns | app/routers/test_runs.py:12-19 | Exactly the page, at that offset and limit, of the whole runs table in key order, whoever owns their suite: at most `limit` runs. Unbounded, it lists every run. |
| RunRoutes.ListRunsPagesJoin | app/routers/test_runs.py:12-19 | Two consecutive pages of runs of size k together are the page of size 2k. |
| RunRoutes.CreateRun | app/routers/test_runs.py:22-28 | The session's new state and result are the generic create of the body. |
| RunRoutes.RunRecord | app/models/test_run.py:17-32 | A run body builds a pending, unstarted, uncompleted run with the body's name and suite link. |
| RunRoutes.RunRecordAdmissible | app/models/test_run.py:17-32 | That record always meets the runs table's constraints, whatever the table holds. |
| RunRoutes.CreateRunAlwaysSucceeds | app/routers/test_runs.py:22-28 | Creating a run always succeeds as a pending run, whatever suite it names (missing or foreign), and leaves the suites alone. |
| RunRoutes.GetRun | app/routers/test_runs.py:31-40 | The run with that key, or the run 404 exactly when there is none. |
| RunRoutes.UpdateRunOutcome | app/routers/test_runs.py:43-53 | A missing run gives the 404 and changes nothing. Success updates the requested run. |
| RunRoutes.RunUpdateEffect | app/routers/test_runs.py:43-53 | An update keeps the suite link and creation instant, and sets any sent status from any status. |
| RunRoutes.RunUpdateSucceeds | app/routers/test_runs.py:43-53 | In a valid runs table, an update of an existing run succeeds exactly when it sets neither name nor status to null. |
| RunRoutes.RunChangesNonNull | app/models/test_run.py:21-22 | A run update writes no NULL into a NOT NULL column exactly when neither name nor status is sent as null. |
| RunRoutes.UpdateRun | app/routers/test_runs.py:43-53 | The session's new state and result are those of UpdateRunOutcome. |
| RunRoutes.DeleteRunOutcome | app/routers/test_runs.py:56-63 | The 404 exactly when there is no such run, with nothing changed. Otherwise the run is deleted with its cascade. |
| RunRoutes.DeleteRun | app/routers/test_runs.py:56-63 | The session's new state and result are those of DeleteRunOutcome. |
| RunRoutes.DeletedRunIsGone | app/routers/test_runs.py:56-63 | After a delete the run is a 404, exactly its results are gone, and users, suites and cases are untouched. |
| ResultRoutes.ListResults | app/routers/test_results.py:12-20 | Exactly the page, at that offset and limit, of that run's results in key order: at most `limit` of them. Unbounded, it lists all of them. |
| ResultRoutes.CreateResult | app/routers/test_results.py:23-29 | The session's new state and result are the generic create of the body. |
| ResultRoutes.ResultRecord | app/models/test_result.py:18-35 | A result body builds the record with its run, case, status and duration, executed now. |
| ResultRoutes.ResultRecordAdmissible | app/models/test_result.py:18-35 | That record always meets the results table's constraints. |
| ResultRoutes.CreateResultAlwaysSucceeds | app/routers/test_results.py:23-29 | Creating a result always succeeds, whether or not its run and case exist. The references are stored as given and runs and cases are untouched. |
| ResultRoutes.GetResult | app/routers/test_results.py:32-41 | The result with that key, or the result 404 exactly when there is none. |
| ResultRoutes.UpdateResultOutcome | app/routers/test_results.py:44-54 | A missing result gives the 404 and changes nothing. Success updates the requested result. |
| ResultRoutes.ResultUpdateKeepsUnset | app/routers/test_results.py:44-54 | Fields left out (status, notes, duration) keep their values. A sent status, notes or duration is written. The run and case references never change. |
| ResultRoutes.ResultUpdateSucceeds | app/routers/test_results.py:44-54 | In a valid results table, an update of an existing result succeeds exactly when it does not set the status to null. |
| ResultRoutes.ResultChangesNonNull | app/models/test_result.py:22 | A result update writes no NULL into a NOT NULL column exactly when the status is not sent as null. |
| ResultRoutes.UpdateResult | app/routers/test_results.py:44-54 | The session's new state and result are those of UpdateResultOutcome. |
| ResultRoutes.DeleteResultOutcome | app/routers/test_results.py:57-64 | The 404 exactly when there is no such result, with nothing changed. Otherwise the row is deleted. |
| ResultRoutes.DeleteResult | app/routers/test_results.py:57-64 | The session's new state and result are those of DeleteResultOutcome. |
| ResultRoutes.DeletedResultIsGone | app/routers/test_results.py:57-64 | After a delete the result is a 404. Exactly that row is gone and the other tables are untouched. |

## Left out

- **HTTP transport.** Requests, responses, headers (including `WWW-Authenticate: Bearer`), CORS, the request-logging middleware (app/core/logging.py) and the health routes are left out. Routes are functions of their decoded inputs.
- **Session lifecycle.** `get_db` opens and closes a session per request. That lifecycle, the engine and the Alembic migrations are not modelled. The `Session` class stands for one database.
- **Concurrency.** Concurrent requests and transaction isolation are not modelled. Every route runs alone on the database value.
- **Time.** Time is an integer count of seconds passed in as `now`. Microseconds, time zones and clock reads are not modelled.
- **bcrypt.** Hashing is idealised as injective: a hash verifies exactly its own password. The 72-byte truncation and the random salt are not modelled (the salt is a parameter).
- **JWT.** Tokens are values. A `Signed` token records its key, algorithm and claims, and signatures and base64 encoding are not modelled. A token string that is not a JWT at all is `Malformed`.
- **Primary keys.** A new key is the largest key plus one (the last key, as tables are kept in key order). That is SQLite's rowid rule for tables without `AUTOINCREMENT`, and so a deleted highest key is reused. The choice of a random unused key once the largest key is 2^63-1 is not modelled. SQLite leaves the order of rows without `ORDER BY` undefined; the model fixes it to key order.
- **Foreign keys.** SQLite does not enforce them here. A run's or result's references are stored as given, and the model keeps it that way. `RunLinkPolicy` chooses whether deleting a suite nulls its runs' link (what the ORM does when the runs are loaded) or leaves it dangling.
- **Pydantic validation.** Only the enum fields of the case and result create bodies are checked (`ParseCaseCreate`, `ParseResultCreate`). An invalid enum in a case, run or result PATCH body, which the source answers with 422, is not modelled: update bodies arrive with valid enums. Type coercion, `EmailStr` checks and normalisation, and string length limits are not modelled, and bodies arrive already typed. app/schemas/auth.py is not part of this model; the login response's `token_type` is "bearer".
- **Missing token.** A missing or non-bearer `Authorization` header is refused by `OAuth2PasswordBearer` before `get_current_user` runs. It is modelled as the `None` token with 401 "Not authenticated".
- Security.ParseInt: `int()` also accepts surrounding whitespace, `_` digit separators and non-ASCII Unicode decimal digits (such as Arabic-Indic digits). These are not modelled; tokens this service issues never contain them.
- CaseRoutes.ParentSuite: returns 0 for a case row without an integer `suite_id`. This cannot occur in a valid database, where `suite_id` is NOT NULL.
- AuthRoutes.Login: the decode property is stated for a non-negative `ACCESS_TOKEN_EXPIRE_MINUTES`. With a negative setting the token is already expired when issued.
- Crud.UpdateOutcome: requires the changed fields to be columns of the model. The update schemas guarantee this, and `setattr` with an unknown name is not modelled.
- **64-bit integers.** Keys and integer fields are unbounded here. SQLite binds every integer parameter as a signed 64-bit INTEGER, and Python's sqlite3 raises OverflowError, answered as a 500, for a value outside [-2^63, 2^63-1]. The model does not capture that 500. It answers the following as if the value fitted:
  - `Tables.Find`, `Crud.Get` and the lookups of `SuiteRoutes.GetSuite`, `CaseRoutes.GetCase`, `RunRoutes.GetRun` and `ResultRoutes.GetResult`, together with the update and delete routes built on them. For example, `GET /test-runs/9223372036854775808` is a 404 in the model.
  - `Tables.Page` with such a skip or limit.
  - `Dependencies.CurrentUser` with a `sub` outside that range. The model gives a 401 where the source gives a 500.
  - `Crud.CreateOutcome` with a `suite_id`, `run_id`, `test_case_id` or `duration_ms` outside it. `RunRoutes.CreateRunAlwaysSucceeds` and `ResultRoutes.CreateResultAlwaysSucceeds` hold only for values in range.
- Errors.Respond: answers an unhandled error through the corrected `UnhandledExceptionHandler`. The handler registered at main.py:48-50 is the as-written one, which raises NameError, so the client actually gets a bare 500 without the envelope (see "## Findings").
- Run and result routes take no user. They depend on `get_current_user` only to require authentication, so that dependency is modelled once, in `Dependencies.CurrentUser`.

## Findings

| source | as written | input that shows it | evidently intended | confidence | as-written member | corrected member |
|---|---|---|---|---|---|---|
| app/core/exceptions.py:56 | `status.HTTP_500_INTERNAL_SERVER_ERROR` names `status`, which the module never imports, so the catch-all handler raises NameError instead of answering | any unhandled exception, such as a `sub` claim that is not an integer | a 500 response with the generic error envelope | high (not executed) | Errors.UnhandledExceptionHandlerAsWritten | Errors.UnhandledExceptionHandler |
