/** The permission check shared by `edit_task` and `delete_task`: the
    creator of a task, or the creator's direct manager, may change it. */
module Authorization {
  import opened Schema

  /** `is_creator or is_manager`. The creator's `user` row must exist for
      `is_manager` to be computed at all; without it the request fails for
      every actor, the creator included, so it is a denial here. */
  predicate CanMutate(users: map<UserId, User>, task: Task, actor: UserId) {
    && task.createdBy in users
    && (task.createdBy == actor || users[task.createdBy].manager == Some(actor))
  }

  /** For a creator `u` with a row whose manager is `m`, exactly `u` and `m` may
      change the task: both directions of the rule. */
  lemma PermittedIffCreatorOrManager(users: map<UserId, User>, task: Task, actor: UserId)
    requires task.createdBy in users
    ensures CanMutate(users, task, actor) <==>
      actor == task.createdBy || Some(actor) == users[task.createdBy].manager
  {
  }

  /** The manager of the creator's manager is denied (unless it is the
      creator or the creator's manager itself). */
  lemma GrandManagerDenied(users: map<UserId, User>, task: Task, m: UserId, g: UserId)
    requires task.createdBy in users && users[task.createdBy].manager == Some(m)
    requires m in users && users[m].manager == Some(g)
    requires g != m && g != task.createdBy
    ensures !CanMutate(users, task, g)
  {
  }

  /** Being the assignee grants nothing: an assignee who is neither the
      creator nor the creator's manager is denied. */
  lemma AssigneeAloneDenied(users: map<UserId, User>, task: Task)
    requires task.assignedTo.Some? && task.createdBy in users
    requires task.assignedTo.value != task.createdBy
    requires users[task.createdBy].manager != task.assignedTo
    ensures !CanMutate(users, task, task.assignedTo.value)
  {
  }

  /** A task whose creator has no row can be changed by nobody. */
  lemma OrphanedTaskFrozen(users: map<UserId, User>, task: Task, actor: UserId)
    requires task.createdBy !in users
    ensures !CanMutate(users, task, actor)
  {
  }

  /** The decision reads only the creator field of the task: title, status,
      assignee, deadline and dates do not enter it. */
  lemma DecisionDependsOnCreatorOnly(users: map<UserId, User>, a: Task, b: Task, actor: UserId)
    requires a.createdBy == b.createdBy
    ensures CanMutate(users, a, actor) == CanMutate(users, b, actor)
  {
  }

  /** After `select_manager` names `m` as the manager of `u`, `m` may change
      the tasks `u` created, and a former manager who is neither `u` nor `m`
      no longer may. */
  lemma NewManagerTakesOver(users: map<UserId, User>, u: UserId, m: UserId, task: Task, former: UserId)
    requires u in users && task.createdBy == u
    requires users[u].manager == Some(former) && former != u && former != m
    ensures CanMutate(users, task, former)
    ensures var users' := users[u := users[u].(manager := Some(m))];
      CanMutate(users', task, m) && !CanMutate(users', task, former)
  {
  }
}
