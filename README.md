# Task manager core in Dafny

A model of the decision rules and store updates of a small py4web task
manager (`controllers.py`, `models.py`). Users, organised by a `manager`
self-reference, create tasks, assign them, comment on them and filter them.
The model keeps the three tables in memory: `user` and `tasks_table` as
maps from id to row, `comments` as a sequence. The acting user's id and the
current time are parameters.

Modules, one per concern of the source:

- `Schema` (`schema.dfy`): the rows of `user`, `tasks_table` and `comments`,
  the five-value status enum, and the reference invariants of `models.py`.
- `Dates` (`dates.dfy`): `strptime(s, '%Y-%m-%d')` as a parser and the
  one-day window `[d 00:00, d+1 00:00)` of the two date filters, over integer
  timestamps (seconds since 1970-01-01 00:00).
- `Directory` (`directory.dfy`): direct reports, and the resolve-or-create
  step of `index`.
- `Authorization` (`authorization.dfy`): the edit/delete permission rule.
- `Tasks` (`tasks.dfy`): the partial update of `edit_task` and the row
  `create_task` inserts.
- `Comments` (`comments.dfy`): the blank-text rule, the rows `get_comments`
  returns and their order, the cascade of `delete_task`.
- `Query` (`query.dfy`): the conjunction `filter_tasks` builds, checked
  against an independent key-by-key reading of the criteria.
- `Controllers` (`controllers.dfy`): a `Store` class whose methods are the
  actions, each stating its reply and the whole new state.

Decisions the source leaves open:

- One id space. `created_by` and the signed-in id are `auth_user` ids, yet
  the source looks them up in `user` (`controllers.py:59,133`), and
  `select_manager` resolves the manager in `auth_user` (`controllers.py:101`).
  The model assumes both tables use the same ids.
- Orphaned creator. When the creator of a task has no `user` row,
  `controllers.py:133` and `:261` raise, for every actor, the creator
  included. The model denies (`Not Authorized`) and changes nothing. Letting
  the creator through in that case would be a defensible alternative; the
  model keeps the behaviour of the code.
- Self-manager. `select_manager` accepts a user naming themselves as manager
  (`controllers.py:97`), and so does the model; nothing in the code rejects it.
- Foreign keys. `reference` fields are foreign keys the database enforces
  (pydal turns them on, with `ON DELETE CASCADE`). A write whose `assigned_to`,
  `manager` or comment `task_id` names a missing row fails (`Fault`) and
  changes nothing; deleting a task deletes its comments.
- Status. `IS_IN_SET` (`models.py:26`) is a form validator and does not run
  on the raw `insert`/`update` of the controllers. The model types the
  status of create and edit requests as the enum (see Left out). The filter
  takes the status as raw text, so an unknown name selects nothing.
- Ids. Rows get auto-increment ids starting at 1, never reused; the base
  query `id > 0` therefore selects every row.

## Model

| member | source | states |
|---|---|---|
| Schema.ParseStatus | models.py:26 | a text is read as a status only when it is that status's stored name |
| Schema.ParseStatusRoundTrip | models.py:26 | the five stored names read back as the five statuses |
| Dates.ParseDate | controllers.py:166 | a parsed date always exists in the calendar: year 1 to 9999, month 1 to 12, day within the month's length; which date it is, and which texts parse, is `Dates.ParseDateMeaning` |
| Dates.Spells | controllers.py:166 | the reference reading of `%Y-%m-%d`: a four-digit year, a month written with two digits or (below 10) one, a day written with two digits or (below 10) one digit or a space and one digit, joined by '-', nothing after |
| Dates.ParseDateMeaning | controllers.py:166 | the parser returns date `d` for text `s` iff `d` is a calendar date and `s` spells it: every accepted spelling is read as the date it spells, and nothing else parses |
| Dates.ParseFormat | controllers.py:166 | every date written zero-padded as `YYYY-MM-DD` parses back to itself |
| Dates.AcceptedSpellings | controllers.py:166 | unpadded month, space-padded day and February 29 of a leap year are accepted |
| Dates.RefusedSpellings | controllers.py:166 | February 29 of 2023 and of 1900, day 32, month 13, year 0 and trailing text fail |
| Dates.DayWindow | controllers.py:165-172 | the filter window is one day long, starts at the date's midnight, and exists iff the text parses to a date that has a next day |
| Dates.WindowExamples | controllers.py:165-168 | the window of 2024-01-01 is [1704067200, 1704153600), so 2024-01-02 00:00 is outside; 9999-12-31 has no window |
| Dates.WindowIsCalendarDay | controllers.py:167-168 | a timestamp lies in a date's window iff its calendar day is that date |
| Dates.DayNumberIncreasing | controllers.py:167 | later dates have larger day numbers |
| Dates.DayNumberInjective | controllers.py:167 | distinct dates have distinct day numbers |
| Dates.WindowsDisjoint | controllers.py:165-172 | a timestamp lies in the window of at most one date |
| Dates.YearStep | controllers.py:167 | the days before year y+1 are those before y plus y's length (365 or 366) |
| Directory.DirectReports | controllers.py:187-188 | the set holds exactly the users whose manager is the given user |
| Directory.ReportsAreDirect | controllers.py:194-197 | a report of a report is not a direct report |
| Directory.NewUser | controllers.py:44 | the inserted row carries the identity's username and email, the name "first last" and no manager |
| Directory.LookupByEmail | controllers.py:40 | a found id is a row with that email; nothing is found iff no row has it |
| Directory.LookupUnique | controllers.py:40 | with unique emails the lookup returns the one row with that email |
| Directory.ResolveOrCreate | controllers.py:40-46 | the result id is a row with the identity's email; existing rows are kept; an existing email inserts nothing; an unknown one inserts exactly one row under the next id |
| Directory.ResolveKeepsInvariants | controllers.py:42-46 | resolve-or-create keeps managers referencing rows and emails unique |
| Directory.ResolveIdempotent | controllers.py:40-46 | a second call with the same identity changes nothing and yields the same id |
| Authorization.CanMutate | controllers.py:131-138 | the rule itself (no contract of its own): the creator's `user` row exists and the actor is the creator or that row's manager |
| Authorization.PermittedIffCreatorOrManager | controllers.py:131-138 | an actor may edit or delete iff it is the creator or the creator's direct manager |
| Authorization.GrandManagerDenied | controllers.py:259-264 | the manager of the creator's manager is denied |
| Authorization.AssigneeAloneDenied | controllers.py:132-137 | an assignee who is neither creator nor creator's manager is denied |
| Authorization.OrphanedTaskFrozen | controllers.py:133 | a task whose creator has no user row can be changed by nobody |
| Authorization.DecisionDependsOnCreatorOnly | controllers.py:260-261 | the decision depends on the task's creator only |
| Authorization.NewManagerTakesOver | controllers.py:97 | after a manager change the new manager gains, and the former manager loses, the right to change the user's tasks |
| Tasks.ApplyPatch | controllers.py:143-149 | each present key sets its column, each absent key keeps the old value, creator and creation time are kept |
| Tasks.EmptyPatchKeepsRow | controllers.py:143-149 | an empty request body leaves the row unchanged |
| Tasks.PatchIdempotent | controllers.py:143-149 | applying the same update twice equals applying it once |
| Tasks.AnyStatusReachable | controllers.py:146 | any status may be written whatever the current one: no transition table |
| Tasks.PatchKeepsPermission | controllers.py:143-149 | an edit never changes who may edit the task next |
| Tasks.PatchKeepsAssignee | models.py:27 | an edit whose assignee exists keeps the assignee invariant |
| Tasks.Inserted | controllers.py:210-216 | the new row holds the request's fields, the actor as creator and the current time as creation time |
| Tasks.CreatorMayEditNewTask | models.py:28 | the creator of a new task may edit it once their user row exists |
| Comments.IsBlank | controllers.py:225-226 | `not comment_text` (no contract of its own): a missing, null or empty text is blank; text made of spaces is not |
| Comments.OfTask | controllers.py:237 | the task's comments, each exactly as often as stored, and no other |
| Comments.OfOtherTasks | models.py:33 | after the cascade no comment of the deleted task remains and every other comment is kept |
| Comments.SortByCreatedOn | controllers.py:237 | the result is ascending by creation time and a permutation of the input |
| Comments.ForTask | controllers.py:237 | `get_comments` returns exactly the task's comments, ascending by creation time |
| Comments.AppendShowsOnlyOnItsTask | controllers.py:228-237 | a new comment appears in its own task's list and in no other |
| Query.DateClauses | controllers.py:165-172 | a date key adds at most one clause and fails iff it is null, malformed or has no next day |
| Query.FieldClauses | controllers.py:173-178 | the equality clauses of the present `status`, `created_by` and `assigned_to` keys (no contract of its own; its meaning is `Query.FieldClausesMeaning`) |
| Query.ModeClauses | controllers.py:180-197 | the clause of the `criteria` mode key (no contract of its own; its meaning is `Query.ModeClausesMeaning`) |
| Query.BuildQuery | controllers.py:163-197 | building the conjunction fails iff a present date key is null, malformed or has no next day; what it selects is `Query.BuildQueryMeaning` |
| Query.DateClauseMeaning | controllers.py:165-172 | the date clause holds iff the timestamp falls on the named calendar day (a missing deadline never matches) |
| Query.FieldClausesMeaning | controllers.py:173-178 | the status, created_by and assigned_to clauses hold iff each present key's equality holds |
| Query.ModeClausesMeaning | controllers.py:180-197 | each mode restricts to the actor or to the actor's direct reports; other values add nothing |
| Query.BuildQueryMeaning | controllers.py:163-197 | the accumulated conjunction holds of a task iff the key-by-key reading selects it |
| Query.FilterTasks | controllers.py:159-200 | the call fails iff a date key does not parse; otherwise it returns exactly the stored tasks the criteria select, unchanged |
| Query.NoCriteriaSelectsAll | controllers.py:163 | with no keys every task is returned |
| Query.SelectedNarrows | controllers.py:163-197 | each key of the smaller criteria is a conjunct of the larger |
| Query.AddingKeysNarrows | controllers.py:163-199 | adding keys never enlarges the result |
| Query.UnknownStatusSelectsNothing | controllers.py:173-174 | a status name outside the enum returns no task without failing |
| Query.ManagedBySelfMeaning | controllers.py:190-197 | `managed-by-self` returns exactly the tasks created by direct reports, none when there are none |
| Query.MalformedDateFails | controllers.py:165-166 | a malformed `date_created` fails the whole call |
| Schema.ValidTables | models.py:11-36 | the reference invariants (no contract of its own): every manager and assignee is a user row, emails are unique, every comment names a task row |
| Controllers.Store.Valid | models.py:11-36 | the store's invariant (no contract of its own): the table invariants, and every id below the next id the table hands out |
| Controllers.Store.Index | controllers.py:36-46 | the directory after `index` is resolve-or-create of the one before; invariants kept |
| Controllers.Store.SelectManager | controllers.py:86-119 | only the actor's `manager` changes; a missing manager row fails; a missing actor row changes nothing yet answers "Manager updated" |
| Controllers.Store.EditTask | controllers.py:124-154 | not found, then not authorized, each leaving tasks unchanged; otherwise only that row changes, to the partial update |
| Controllers.Store.DeleteTask | controllers.py:253-269 | not found and not authorized change nothing; a permitted delete removes exactly that id and its comments |
| Controllers.Store.CreateTask | controllers.py:209-219 | one row is inserted under a fresh id, signed by the actor; other rows unchanged |
| Controllers.Store.AddComment | controllers.py:223-233 | blank text inserts nothing and answers "Comment text is required"; otherwise exactly one comment is appended |
| Controllers.Store.GetComments | controllers.py:236-239 | returns the task's comments in creation-time order |
| Controllers.Store.FilterTasks | controllers.py:159-200 | returns the rows the criteria select, or fails on a bad date |

## Left out

- Routing, `@action.uses` fixtures, templates, `T`, `redirect`, `abort` and
  `print`: framework plumbing with no decision in it.
- The session and `auth.get_user()`: the acting user is a parameter; the
  not-signed-in branch of `index` (a redirect) is not modelled.
- `current_user`, `get_users`, `view_task` (which reads tables that do not
  exist) and the GET branch of `create_task`: reads with no rule in them.
- The `manager_assignment` table and the commented-out code that wrote it: dead.
- `db.commit()` and the DAL: tables are maps and a sequence.
- The "Failed to update task" branch of `edit_task`: in a sequential model
  the row found just before is always updated; the branch exists only for
  the check-then-write race, which is out of scope (no concurrency).
- Row order of `filter_tasks`: the result is a map by id.
- Comments.ForTask: the order among comments with equal creation times is
  not stated (the database may return them in any order).
- Wall-clock time: `now` is a parameter; `datetime` is an integer count of
  seconds without time zone; how the database stores datetimes is not modelled.
- `strptime` also accepts non-ASCII decimal digits for `%Y` and `\d`; the
  parser accepts ASCII digits only.
- Request values of the wrong JSON type (a number where a date string is
  expected, an id sent as text): not modelled; ids are naturals.
- Controllers.Store.CreateTask: the status is typed as the enum, so a request
  with a missing or unknown status cannot be expressed, while the source
  would store it (the validator does not run on a raw insert).
- Controllers.Store.EditTask: the same typing of the status key; a null or
  unknown status the source would write cannot be expressed.
- Controllers.Store.Index: the greeting message is not returned.
- Controllers.Store.SelectManager: the manager's name looked up afterwards
  in `auth_user` is only printed and is not modelled.
- The orphaned-creator exception of `edit_task`/`delete_task` is a denial.
