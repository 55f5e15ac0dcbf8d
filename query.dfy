/** `filter_tasks`: a conjunction built from whichever request keys are
    present, starting from "every row". */
module Query {
  import opened Schema
  import opened Dates
  import Directory

  /** A request key: missing, present as JSON null, or present with a value. */
  datatype Entry<T> = Absent | Null | Given(value: T)

  /** The request body of `filter_tasks`: five field keys and the mode
      selector stored under the key `criteria`. */
  datatype Criteria = Criteria(
    dateCreated: Entry<string>,
    deadline: Entry<string>,
    status: Entry<string>,
    createdBy: Entry<UserId>,
    assignedTo: Entry<UserId>,
    mode: Entry<string>)

  const NoCriteria: Criteria := Criteria(Absent, Absent, Absent, Absent, Absent, Absent)

  /** One conjunct of the query, as the DAL would evaluate it against a row.
      `None` in an equality stands for comparing with null (`IS NULL`). */
  datatype Clause =
    | CreatedOnIn(lo: Timestamp, hi: Timestamp)
    | DeadlineIn(lo: Timestamp, hi: Timestamp)
    | StatusIs(name: Option<string>)
    | CreatedByIs(user: Option<UserId>)
    | AssignedToIs(user: Option<UserId>)
    | CreatedByIn(ids: set<UserId>)
    | AssignedToIn(ids: set<UserId>)

  /** A comparison with a null column is never true. */
  predicate Holds(c: Clause, t: Task) {
    match c
    case CreatedOnIn(lo, hi) => lo <= t.createdOn < hi
    case DeadlineIn(lo, hi) => t.deadline.Some? && lo <= t.deadline.value < hi
    case StatusIs(name) => name == Some(StatusName(t.status))
    case CreatedByIs(u) => u == Some(t.createdBy)
    case AssignedToIs(u) => u == t.assignedTo
    case CreatedByIn(ids) => t.createdBy in ids
    case AssignedToIn(ids) => t.assignedTo.Some? && t.assignedTo.value in ids
  }

  predicate HoldsAll(q: seq<Clause>, t: Task) {
    forall i :: 0 <= i < |q| ==> Holds(q[i], t)
  }

  function ValueOf<T>(e: Entry<T>): Option<T>
    requires !e.Absent?
  {
    if e.Null? then None else Some(e.value)
  }

  /** The clause a date key adds: `[d 00:00, d + 1 day 00:00)` on the
      creation time or on the deadline. Fails for null, malformed or
      out-of-range text. */
  function DateClauses(e: Entry<string>, onDeadline: bool): (r: Option<seq<Clause>>)
    ensures r.Some? <==> e.Absent? || (e.Given? && DayWindow(e.value).Some?)
    ensures r.Some? ==> |r.value| <= 1
  {
    match e
    case Absent => Some([])
    case Null => None
    case Given(s) =>
      match DayWindow(s)
      case None => None
      case Some(w) => Some([if onDeadline then DeadlineIn(w.0, w.1) else CreatedOnIn(w.0, w.1)])
  }

  /** The equality clauses of `status`, `created_by` and `assigned_to`, in that order. */
  function FieldClauses(c: Criteria): seq<Clause> {
    (if c.status.Absent? then [] else [StatusIs(ValueOf(c.status))])
    + (if c.createdBy.Absent? then [] else [CreatedByIs(ValueOf(c.createdBy))])
    + (if c.assignedTo.Absent? then [] else [AssignedToIs(ValueOf(c.assignedTo))])
  }

  /** The clause of the mode selector; any other value (or none) adds nothing. */
  function ModeClauses(mode: Entry<string>, actor: UserId, users: map<UserId, User>): seq<Clause> {
    if mode == Given("created-by-self") then [CreatedByIs(Some(actor))]
    else if mode == Given("assigned-to-self") then [AssignedToIs(Some(actor))]
    else if mode == Given("managed-by-self-assign") then [AssignedToIn(Directory.DirectReports(users, actor))]
    else if mode == Given("managed-by-self") then [CreatedByIn(Directory.DirectReports(users, actor))]
    else []
  }

  /** The `query &= ...` accumulation, in the order of the source, or None
      when a date fails to parse. */
  function BuildQuery(c: Criteria, actor: UserId, users: map<UserId, User>): (r: Option<seq<Clause>>)
    ensures r.Some? <==> DatesParse(c)
  {
    var created := DateClauses(c.dateCreated, false);
    var deadline := DateClauses(c.deadline, true);
    if created.None? || deadline.None? then None
    else Some(created.value + deadline.value + FieldClauses(c) + ModeClauses(c.mode, actor, users))
  }

  /** Every date key present holds text that parses to a date with a next day. */
  predicate DatesParse(c: Criteria) {
    && (c.dateCreated.Absent? || (c.dateCreated.Given? && DayWindow(c.dateCreated.value).Some?))
    && (c.deadline.Absent? || (c.deadline.Given? && DayWindow(c.deadline.value).Some?))
  }

  // ----------------------------------------------- what each key means

  /** The date keys read as calendar days. */
  ghost predicate SelectedDates(c: Criteria, t: Task)
    requires DatesParse(c)
  {
    && (c.dateCreated.Given? ==> CalendarDay(t.createdOn) == DayNumber(ParseDate(c.dateCreated.value).value))
    && (c.deadline.Given? ==>
          t.deadline.Some? && CalendarDay(t.deadline.value) == DayNumber(ParseDate(c.deadline.value).value))
  }

  /** The equality keys: a null `status` or `created_by` matches nothing,
      a null `assigned_to` matches unassigned tasks. */
  ghost predicate SelectedFields(c: Criteria, t: Task) {
    && (c.status.Given? ==> ParseStatus(c.status.value) == Some(t.status))
    && !c.status.Null?
    && (c.createdBy.Given? ==> t.createdBy == c.createdBy.value)
    && !c.createdBy.Null?
    && (c.assignedTo.Given? ==> t.assignedTo == Some(c.assignedTo.value))
    && (c.assignedTo.Null? ==> t.assignedTo.None?)
  }

  /** The mode selector, relative to the acting user and their direct reports. */
  ghost predicate SelectedMode(mode: Entry<string>, actor: UserId, users: map<UserId, User>, t: Task) {
    && (mode == Given("created-by-self") ==> t.createdBy == actor)
    && (mode == Given("assigned-to-self") ==> t.assignedTo == Some(actor))
    && (mode == Given("managed-by-self-assign") ==>
          t.assignedTo.Some? && Directory.ReportsTo(users, t.assignedTo.value, actor))
    && (mode == Given("managed-by-self") ==> Directory.ReportsTo(users, t.createdBy, actor))
  }

  /** The criteria read key by key. This is the reference the built query
      is checked against. */
  ghost predicate Selected(c: Criteria, actor: UserId, users: map<UserId, User>, t: Task)
    requires DatesParse(c)
  {
    SelectedDates(c, t) && SelectedFields(c, t) && SelectedMode(c.mode, actor, users, t)
  }

  lemma HoldsAllAppend(a: seq<Clause>, b: seq<Clause>, t: Task)
    ensures HoldsAll(a + b, t) <==> HoldsAll(a, t) && HoldsAll(b, t)
  {
    if HoldsAll(a, t) && HoldsAll(b, t) {
      forall i | 0 <= i < |a + b| ensures Holds((a + b)[i], t) {
        if i >= |a| { assert (a + b)[i] == b[i - |a|]; }
      }
    }
    if HoldsAll(a + b, t) {
      forall i | 0 <= i < |a| ensures Holds(a[i], t) {
        assert (a + b)[i] == a[i];
      }
      forall i | 0 <= i < |b| ensures Holds(b[i], t) {
        assert (a + b)[|a| + i] == b[i];
      }
    }
  }

  lemma HoldsAllOne(q: seq<Clause>, t: Task)
    requires |q| <= 1
    ensures HoldsAll(q, t) <==> (q == [] || Holds(q[0], t))
  {
  }

  /** A date clause holds exactly on the calendar day it names. */
  lemma DateClauseMeaning(e: Entry<string>, onDeadline: bool, ts: Option<Timestamp>, t: Task)
    requires DateClauses(e, onDeadline).Some?
    requires ts == (if onDeadline then t.deadline else Some(t.createdOn))
    ensures HoldsAll(DateClauses(e, onDeadline).value, t) <==>
      (e.Given? ==> ts.Some? && CalendarDay(ts.value) == DayNumber(ParseDate(e.value).value))
  {
    var q := DateClauses(e, onDeadline).value;
    HoldsAllOne(q, t);
    if e.Given? {
      var d := ParseDate(e.value).value;
      if ts.Some? {
        WindowIsCalendarDay(d, ts.value);
      }
    }
  }

  lemma DatePartMeaning(c: Criteria, t: Task)
    requires DatesParse(c)
    ensures HoldsAll(DateClauses(c.dateCreated, false).value + DateClauses(c.deadline, true).value, t)
        <==> SelectedDates(c, t)
  {
    HoldsAllAppend(DateClauses(c.dateCreated, false).value, DateClauses(c.deadline, true).value, t);
    DateClauseMeaning(c.dateCreated, false, Some(t.createdOn), t);
    DateClauseMeaning(c.deadline, true, t.deadline, t);
  }

  lemma FieldClausesMeaning(c: Criteria, t: Task)
    ensures HoldsAll(FieldClauses(c), t) <==> SelectedFields(c, t)
  {
    var s := if c.status.Absent? then [] else [StatusIs(ValueOf(c.status))];
    var b := if c.createdBy.Absent? then [] else [CreatedByIs(ValueOf(c.createdBy))];
    var a := if c.assignedTo.Absent? then [] else [AssignedToIs(ValueOf(c.assignedTo))];
    HoldsAllAppend(s, b, t);
    HoldsAllAppend(s + b, a, t);
    HoldsAllOne(s, t);
    HoldsAllOne(b, t);
    HoldsAllOne(a, t);
    ParseStatusRoundTrip(t.status);
  }

  lemma ModeClausesMeaning(mode: Entry<string>, actor: UserId, users: map<UserId, User>, t: Task)
    ensures HoldsAll(ModeClauses(mode, actor, users), t) <==> SelectedMode(mode, actor, users, t)
  {
    HoldsAllOne(ModeClauses(mode, actor, users), t);
  }

  /** The built query holds of a row exactly when the row is Selected. */
  lemma BuildQueryMeaning(c: Criteria, actor: UserId, users: map<UserId, User>, t: Task)
    requires DatesParse(c)
    ensures BuildQuery(c, actor, users).Some?
    ensures HoldsAll(BuildQuery(c, actor, users).value, t) <==> Selected(c, actor, users, t)
  {
    var dates := DateClauses(c.dateCreated, false).value + DateClauses(c.deadline, true).value;
    var fields := FieldClauses(c);
    var mode := ModeClauses(c.mode, actor, users);
    assert BuildQuery(c, actor, users).value == dates + fields + mode;
    HoldsAllAppend(dates, fields, t);
    HoldsAllAppend(dates + fields, mode, t);
    DatePartMeaning(c, t);
    FieldClausesMeaning(c, t);
    ModeClausesMeaning(c.mode, actor, users, t);
  }

  // ------------------------------------------------------ the whole call

  /** `db(query).select()`: the rows of the store the query selects, or
      None when a date key fails to parse (the call raises). The base
      condition `id > 0` holds of every row, since ids start at 1. */
  function FilterTasks(c: Criteria, actor: UserId, users: map<UserId, User>, tasks: map<TaskId, Task>)
    : (r: Option<map<TaskId, Task>>)
    ensures r.Some? <==> DatesParse(c)
    ensures r.Some? ==> forall id :: id in r.value <==> id in tasks && id > 0 && Selected(c, actor, users, tasks[id])
    ensures r.Some? ==> forall id :: id in r.value ==> r.value[id] == tasks[id]
  {
    match BuildQuery(c, actor, users)
    case None => None
    case Some(q) =>
      assert DatesParse(c);
      assert forall id :: id in tasks ==> (HoldsAll(q, tasks[id]) <==> Selected(c, actor, users, tasks[id])) by {
        forall id | id in tasks
          ensures HoldsAll(q, tasks[id]) <==> Selected(c, actor, users, tasks[id])
        {
          BuildQueryMeaning(c, actor, users, tasks[id]);
        }
      }
      Some(map id | id in tasks && id > 0 && HoldsAll(q, tasks[id]) :: tasks[id])
  }

  // ----------------------------------------------------------- properties

  /** With no keys the call returns every task. */
  lemma NoCriteriaSelectsAll(actor: UserId, users: map<UserId, User>, tasks: map<TaskId, Task>)
    requires forall id :: id in tasks ==> id > 0
    ensures FilterTasks(NoCriteria, actor, users, tasks) == Some(tasks)
  {
    var r := FilterTasks(NoCriteria, actor, users, tasks);
    assert forall id :: id in tasks ==> Selected(NoCriteria, actor, users, tasks[id]);
    assert r.value == tasks;
  }

  /** `c2` has every key of `c1`, with the same value, and maybe more. */
  predicate Extends(c2: Criteria, c1: Criteria) {
    && (c1.dateCreated.Absent? || c2.dateCreated == c1.dateCreated)
    && (c1.deadline.Absent? || c2.deadline == c1.deadline)
    && (c1.status.Absent? || c2.status == c1.status)
    && (c1.createdBy.Absent? || c2.createdBy == c1.createdBy)
    && (c1.assignedTo.Absent? || c2.assignedTo == c1.assignedTo)
    && (c1.mode.Absent? || c2.mode == c1.mode)
  }

  /** Each key of `c1` is a conjunct of `c2`'s reading too. */
  lemma SelectedNarrows(c1: Criteria, c2: Criteria, actor: UserId, users: map<UserId, User>, t: Task)
    requires Extends(c2, c1) && DatesParse(c2)
    ensures DatesParse(c1)
    ensures Selected(c2, actor, users, t) ==> Selected(c1, actor, users, t)
  {
  }

  /** Adding keys never enlarges the result. */
  lemma AddingKeysNarrows(c1: Criteria, c2: Criteria, actor: UserId, users: map<UserId, User>,
                          tasks: map<TaskId, Task>)
    requires Extends(c2, c1) && DatesParse(c2)
    ensures FilterTasks(c1, actor, users, tasks).Some? && FilterTasks(c2, actor, users, tasks).Some?
    ensures FilterTasks(c2, actor, users, tasks).value.Keys <= FilterTasks(c1, actor, users, tasks).value.Keys
  {
    var r1, r2 := FilterTasks(c1, actor, users, tasks), FilterTasks(c2, actor, users, tasks);
    forall id | id in r2.value ensures id in r1.value {
      SelectedNarrows(c1, c2, actor, users, tasks[id]);
    }
  }

  /** A status text that names no status selects nothing, without failing. */
  lemma UnknownStatusSelectsNothing(c: Criteria, actor: UserId, users: map<UserId, User>,
                                    tasks: map<TaskId, Task>)
    requires DatesParse(c) && c.status.Given? && ParseStatus(c.status.value).None?
    ensures FilterTasks(c, actor, users, tasks) == Some(map[])
  {
    var r := FilterTasks(c, actor, users, tasks);
    assert r.value.Keys == {};
  }

  /** `managed-by-self` selects exactly the tasks created by a direct report
      of the actor: none when the actor manages nobody. */
  lemma ManagedBySelfMeaning(actor: UserId, users: map<UserId, User>, tasks: map<TaskId, Task>)
    ensures var r := FilterTasks(NoCriteria.(mode := Given("managed-by-self")), actor, users, tasks);
      r.Some? && forall id :: id in r.value <==>
        id in tasks && id > 0 && tasks[id].createdBy in Directory.DirectReports(users, actor)
    ensures Directory.DirectReports(users, actor) == {} ==>
      FilterTasks(NoCriteria.(mode := Given("managed-by-self")), actor, users, tasks) == Some(map[])
  {
    var r := FilterTasks(NoCriteria.(mode := Given("managed-by-self")), actor, users, tasks);
    if Directory.DirectReports(users, actor) == {} {
      assert r.value.Keys == {};
    }
  }

  /** A malformed date fails the whole call, whatever the other keys say. */
  lemma MalformedDateFails(c: Criteria, actor: UserId, users: map<UserId, User>, tasks: map<TaskId, Task>)
    requires c.dateCreated.Given? && ParseDate(c.dateCreated.value).None?
    ensures FilterTasks(c, actor, users, tasks).None?
  {
  }
}
