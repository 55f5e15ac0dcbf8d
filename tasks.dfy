/** The row-level updates of `tasks_table`: the partial update of
    `edit_task` and the row `create_task` inserts. */
module Tasks {
  import opened Schema
  import Authorization

  /** A request key: missing from the JSON body, or present with a value
      (which may itself be null for a nullable column). */
  datatype Field<T> = Omitted | Provided(value: T)

  /** `request.json.get(key, current)`. */
  function Pick<T>(f: Field<T>, current: T): T {
    match f
    case Omitted => current
    case Provided(v) => v
  }

  /** The five keys `edit_task` reads from the request body. */
  datatype Patch = Patch(
    title: Field<Option<string>>,
    description: Field<Option<string>>,
    status: Field<Status>,
    assignedTo: Field<Option<UserId>>,
    deadline: Field<Option<Timestamp>>)

  const EmptyPatch: Patch := Patch(Omitted, Omitted, Omitted, Omitted, Omitted)

  /** The row after `edit_task`'s update: every present key takes the request
      value, every absent key keeps the stored value, and the signature
      columns are not touched. */
  function ApplyPatch(t: Task, p: Patch): (r: Task)
    ensures r.title == (if p.title.Provided? then p.title.value else t.title)
    ensures r.description == (if p.description.Provided? then p.description.value else t.description)
    ensures r.status == (if p.status.Provided? then p.status.value else t.status)
    ensures r.assignedTo == (if p.assignedTo.Provided? then p.assignedTo.value else t.assignedTo)
    ensures r.deadline == (if p.deadline.Provided? then p.deadline.value else t.deadline)
    ensures r.createdBy == t.createdBy && r.createdOn == t.createdOn
  {
    t.(title := Pick(p.title, t.title),
       description := Pick(p.description, t.description),
       status := Pick(p.status, t.status),
       assignedTo := Pick(p.assignedTo, t.assignedTo),
       deadline := Pick(p.deadline, t.deadline))
  }

  /** The assignee the update would write references an existing user (or none). */
  predicate PatchReferencesOk(users: map<UserId, User>, p: Patch) {
    p.assignedTo.Provided? && p.assignedTo.value.Some? ==> p.assignedTo.value.value in users
  }

  /** An empty request body leaves the row as it was. */
  lemma EmptyPatchKeepsRow(t: Task)
    ensures ApplyPatch(t, EmptyPatch) == t
  {
  }

  /** Sending the same update twice has the effect of sending it once. */
  lemma PatchIdempotent(t: Task, p: Patch)
    ensures ApplyPatch(ApplyPatch(t, p), p) == ApplyPatch(t, p)
  {
  }

  /** Any status may follow any status: there is no transition table. */
  lemma AnyStatusReachable(t: Task, s: Status)
    ensures ApplyPatch(t, EmptyPatch.(status := Provided(s))).status == s
  {
  }

  /** An edit cannot change who may edit next: the creator column is kept. */
  lemma PatchKeepsPermission(users: map<UserId, User>, t: Task, p: Patch, actor: UserId)
    ensures Authorization.CanMutate(users, ApplyPatch(t, p), actor) == Authorization.CanMutate(users, t, actor)
  {
  }

  /** An edit whose assignee references hold keeps the row's reference invariant. */
  lemma PatchKeepsAssignee(users: map<UserId, User>, t: Task, p: Patch)
    requires AssigneeExists(users, t) && PatchReferencesOk(users, p)
    ensures AssigneeExists(users, ApplyPatch(t, p))
  {
  }

  /** The keys `create_task` reads from the request body; a missing key
      is stored as null. */
  datatype NewTask = NewTask(
    title: Option<string>,
    description: Option<string>,
    status: Status,
    assignedTo: Option<UserId>,
    deadline: Option<Timestamp>)

  /** The row `create_task` inserts: request fields plus the signature
      columns, which `auth.signature` fills with the acting user and the time. */
  function Inserted(req: NewTask, actor: UserId, now: Timestamp): (t: Task)
    ensures t.createdBy == actor && t.createdOn == now
    ensures t.title == req.title && t.description == req.description && t.status == req.status
    ensures t.assignedTo == req.assignedTo && t.deadline == req.deadline
  {
    Task(req.title, req.description, req.status, req.assignedTo, req.deadline, actor, now)
  }

  /** The creator of a new task may always edit it once their row exists. */
  lemma CreatorMayEditNewTask(users: map<UserId, User>, req: NewTask, actor: UserId, now: Timestamp)
    requires actor in users
    ensures Authorization.CanMutate(users, Inserted(req, actor, now), actor)
  {
  }
}
