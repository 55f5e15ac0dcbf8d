/** The three tables of models.py (`user`, `tasks_table`, `comments`) as
    Dafny values, and the reference invariants their `reference` fields and
    validators declare. */
module Schema {

  datatype Option<T> = None | Some(value: T)

  /** Row ids. One id space is used for the `user` table and for the ids
      the identity provider hands out (the acting user, `created_by`). */
  type UserId = nat
  type TaskId = nat
  type CommentId = nat

  /** A point in time: seconds since 1970-01-01 00:00 (naive, no zone). */
  type Timestamp = int

  /** The closed set of task states of `IS_IN_SET` on `tasks_table.status`. */
  datatype Status = Pending | Acknowledged | Rejected | Completed | Failed

  /** The text the `status` column stores for each state. */
  function StatusName(s: Status): (name: string)
    ensures |name| > 0
  {
    match s
    case Pending => "pending"
    case Acknowledged => "acknowledged"
    case Rejected => "rejected"
    case Completed => "completed"
    case Failed => "failed"
  }

  /** Reading a status back from its stored text: the inverse of StatusName. */
  function ParseStatus(name: string): (r: Option<Status>)
    ensures r.Some? ==> StatusName(r.value) == name
  {
    if name == "pending" then Some(Pending)
    else if name == "acknowledged" then Some(Acknowledged)
    else if name == "rejected" then Some(Rejected)
    else if name == "completed" then Some(Completed)
    else if name == "failed" then Some(Failed)
    else None
  }

  /** A row of the `user` table; `manager` references another row of it. */
  datatype User = User(username: string, name: string, email: string, manager: Option<UserId>)

  /** A row of `tasks_table`; `createdBy` and `createdOn` come from
      `auth.signature`. Nullable columns are options. */
  datatype Task = Task(
    title: Option<string>,
    description: Option<string>,
    status: Status,
    assignedTo: Option<UserId>,
    deadline: Option<Timestamp>,
    createdBy: UserId,
    createdOn: Timestamp)

  /** A row of `comments`; `taskId` references `tasks_table`. */
  datatype Comment = Comment(id: CommentId, taskId: TaskId, text: string, createdBy: UserId, createdOn: Timestamp)

  /** `user.manager` is empty or another row of `user`. */
  ghost predicate ManagersExist(users: map<UserId, User>) {
    forall u :: u in users && users[u].manager.Some? ==> users[u].manager.value in users
  }

  /** No two rows of `user` share an email (the lookup key of `index`). */
  ghost predicate EmailsUnique(users: map<UserId, User>) {
    forall u, v :: u in users && v in users && users[u].email == users[v].email ==> u == v
  }

  /** `assigned_to` is empty or an existing user (models.py `IS_EMPTY_OR(IS_IN_DB(...))`). */
  ghost predicate AssigneeExists(users: map<UserId, User>, t: Task) {
    t.assignedTo.Some? ==> t.assignedTo.value in users
  }

  ghost predicate AssigneesExist(users: map<UserId, User>, tasks: map<TaskId, Task>) {
    forall id :: id in tasks ==> AssigneeExists(users, tasks[id])
  }

  /** Every comment references an existing task. */
  ghost predicate CommentsReferenceTasks(tasks: map<TaskId, Task>, comments: seq<Comment>) {
    forall i :: 0 <= i < |comments| ==> comments[i].taskId in tasks
  }

  /** The reference invariants of the three tables together. */
  ghost predicate ValidTables(users: map<UserId, User>, tasks: map<TaskId, Task>, comments: seq<Comment>) {
    && ManagersExist(users)
    && EmailsUnique(users)
    && AssigneesExist(users, tasks)
    && CommentsReferenceTasks(tasks, comments)
  }

  /** The status names are exactly the five enum members. */
  lemma ParseStatusRoundTrip(s: Status)
    ensures ParseStatus(StatusName(s)) == Some(s)
  {
  }
}
