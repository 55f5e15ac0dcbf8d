/** The actions of controllers.py that read or write the tables, as methods
    of one in-memory store. The acting user is a parameter, as is the
    current time that `auth.signature` records. */
module Controllers {
  import opened Schema
  import Directory
  import Authorization
  import Tasks
  import Comments
  import Query

  const TaskNotFound := "Task not found"
  const NotAuthorized := "Not Authorized"
  const TaskUpdated := "Task updated"
  const TaskDeleted := "Task deleted successfully"
  const CommentRequired := "Comment text is required"
  const CommentAdded := "Comment added successfully"
  const ManagerUpdated := "Manager updated"

  /** What an action answers: `dict(message=...)`, `dict(error=...)`,
      `dict(task_id=...)`, or `Fault` when the database refuses the write
      (a foreign key names a missing row) and the request fails. */
  datatype Reply = Message(text: string) | Error(text: string) | Created(taskId: TaskId) | Fault

  class Store {
    var users: map<UserId, User>
    var tasks: map<TaskId, Task>
    var comments: seq<Comment>
    // the ids the next inserts get (auto-increment, never reused)
    var nextUserId: UserId
    var nextTaskId: TaskId
    var nextCommentId: CommentId

    ghost predicate Valid()
      reads this
    {
      && ValidTables(users, tasks, comments)
      && Directory.IdsBelow(users, nextUserId)
      && 0 < nextTaskId && (forall id :: id in tasks ==> 0 < id < nextTaskId)
      && (forall i :: 0 <= i < |comments| ==> comments[i].id < nextCommentId)
    }

    constructor ()
      ensures Valid()
      ensures users == map[] && tasks == map[] && comments == []
      ensures nextUserId == 1 && nextTaskId == 1 && nextCommentId == 1
    {
      users, tasks, comments := map[], map[], [];
      nextUserId, nextTaskId, nextCommentId := 1, 1, 1;
    }

    /** `index`: find the signed-in user's row by email, or insert it. */
    method Index(ident: Directory.Identity) returns (id: UserId)
      requires Valid()
      modifies this`users, this`nextUserId
      ensures Valid()
      ensures Directory.ResolveOrCreate(old(users), old(nextUserId), ident) == Directory.Resolved(users, nextUserId, id)
    {
      Directory.ResolveKeepsInvariants(users, nextUserId, ident);
      if exists u | u in users :: users[u].email == ident.email {
        id :| id in users && users[id].email == ident.email;
        Directory.LookupUnique(users, ident.email, id);
      } else {
        id := nextUserId;
        users := users[id := Directory.NewUser(ident)];
        nextUserId := nextUserId + 1;
      }
    }

    /** `select_manager`: overwrite the `manager` of the acting user's row,
      and nothing else. A row naming itself is accepted. No row for the
      actor: nothing is updated and the answer is still "Manager updated". */
    method SelectManager(actor: UserId, manager: Option<UserId>) returns (r: Reply)
      requires Valid()
      modifies this`users
      ensures Valid()
      ensures actor in old(users) && manager.Some? && manager.value !in old(users) ==> r == Fault && users == old(users)
      ensures actor !in old(users) ==> r == Message(ManagerUpdated) && users == old(users)
      ensures actor in old(users) && (manager.None? || manager.value in old(users)) ==>
        r == Message(ManagerUpdated) && users == old(users)[actor := old(users)[actor].(manager := manager)]
    {
      if actor !in users {
        return Message(ManagerUpdated);
      }
      if manager.Some? && manager.value !in users {
        return Fault;
      }
      users := users[actor := users[actor].(manager := manager)];
      r := Message(ManagerUpdated);
      assert EmailsUnique(users) by {
        forall u, v | u in users && v in users && users[u].email == users[v].email ensures u == v {
          assert users[u].email == old(users)[u].email && users[v].email == old(users)[v].email;
        }
      }
    }

    /** `edit_task`: not found, then not authorized, then the partial update. */
    method EditTask(actor: UserId, taskId: TaskId, patch: Tasks.Patch) returns (r: Reply)
      requires Valid()
      modifies this`tasks
      ensures Valid()
      ensures taskId !in old(tasks) ==> r == Error(TaskNotFound) && tasks == old(tasks)
      ensures taskId in old(tasks) && !Authorization.CanMutate(users, old(tasks)[taskId], actor) ==>
        r == Error(NotAuthorized) && tasks == old(tasks)
      ensures taskId in old(tasks) && Authorization.CanMutate(users, old(tasks)[taskId], actor) ==>
        if Tasks.PatchReferencesOk(users, patch)
        then r == Message(TaskUpdated) && tasks == old(tasks)[taskId := Tasks.ApplyPatch(old(tasks)[taskId], patch)]
        else r == Fault && tasks == old(tasks)
    {
      if taskId !in tasks {
        return Error(TaskNotFound);
      }
      var task := tasks[taskId];
      if !Authorization.CanMutate(users, task, actor) {
        return Error(NotAuthorized);
      }
      if !Tasks.PatchReferencesOk(users, patch) {
        return Fault;
      }
      Tasks.PatchKeepsAssignee(users, task, patch);
      tasks := tasks[taskId := Tasks.ApplyPatch(task, patch)];
      r := Message(TaskUpdated);
    }

    /** `delete_task`: not found, then not authorized, then the row goes,
      and with it (cascade) the task's comments. */
    method DeleteTask(actor: UserId, taskId: TaskId) returns (r: Reply)
      requires Valid()
      modifies this`tasks, this`comments
      ensures Valid()
      ensures taskId !in old(tasks) ==> r == Error(TaskNotFound) && tasks == old(tasks) && comments == old(comments)
      ensures taskId in old(tasks) && !Authorization.CanMutate(users, old(tasks)[taskId], actor) ==>
        r == Error(NotAuthorized) && tasks == old(tasks) && comments == old(comments)
      ensures taskId in old(tasks) && Authorization.CanMutate(users, old(tasks)[taskId], actor) ==>
        && r == Message(TaskDeleted)
        && tasks == old(tasks) - {taskId}
        && comments == Comments.OfOtherTasks(old(comments), taskId)
    {
      if taskId !in tasks {
        return Error(TaskNotFound);
      }
      if !Authorization.CanMutate(users, tasks[taskId], actor) {
        return Error(NotAuthorized);
      }
      tasks := tasks - {taskId};
      comments := Comments.OfOtherTasks(comments, taskId);
      r := Message(TaskDeleted);
    }

    /** `create_task` (POST): insert the request's fields under the next id,
      signed with the actor and the time. */
    method CreateTask(actor: UserId, now: Timestamp, req: Tasks.NewTask) returns (r: Reply)
      requires Valid()
      modifies this`tasks, this`nextTaskId
      ensures Valid()
      ensures req.assignedTo.Some? && req.assignedTo.value !in users ==>
        r == Fault && tasks == old(tasks) && nextTaskId == old(nextTaskId)
      ensures req.assignedTo.None? || req.assignedTo.value in users ==>
        && r == Created(old(nextTaskId))
        && old(nextTaskId) !in old(tasks)
        && tasks == old(tasks)[old(nextTaskId) := Tasks.Inserted(req, actor, now)]
        && nextTaskId == old(nextTaskId) + 1
    {
      if req.assignedTo.Some? && req.assignedTo.value !in users {
        return Fault;
      }
      var id := nextTaskId;
      tasks := tasks[id := Tasks.Inserted(req, actor, now)];
      nextTaskId := nextTaskId + 1;
      r := Created(id);
    }

    /** `add_comment`: blank text is refused; otherwise one comment is
      appended for the task, signed with the actor and the time. */
    method AddComment(actor: UserId, now: Timestamp, taskId: TaskId, text: Option<string>) returns (r: Reply)
      requires Valid()
      modifies this`comments, this`nextCommentId
      ensures Valid()
      ensures Comments.IsBlank(text) ==>
        r == Error(CommentRequired) && comments == old(comments) && nextCommentId == old(nextCommentId)
      ensures !Comments.IsBlank(text) && taskId !in tasks ==>
        r == Fault && comments == old(comments) && nextCommentId == old(nextCommentId)
      ensures !Comments.IsBlank(text) && taskId in tasks ==>
        && r == Message(CommentAdded)
        && comments == old(comments) + [Comment(old(nextCommentId), taskId, text.value, actor, now)]
        && nextCommentId == old(nextCommentId) + 1
    {
      if Comments.IsBlank(text) {
        return Error(CommentRequired);
      }
      if taskId !in tasks {
        return Fault;
      }
      comments := comments + [Comment(nextCommentId, taskId, text.value, actor, now)];
      nextCommentId := nextCommentId + 1;
      r := Message(CommentAdded);
    }

    /** `get_comments`: the task's comments, oldest first. */
    method GetComments(taskId: TaskId) returns (r: seq<Comment>)
      requires Valid()
      ensures r == Comments.ForTask(comments, taskId)
    {
      r := Comments.ForTask(comments, taskId);
    }

    /** `filter_tasks`: the rows the criteria select, or None when a date
      key does not parse. */
    method FilterTasks(actor: UserId, criteria: Query.Criteria) returns (r: Option<map<TaskId, Task>>)
      requires Valid()
      ensures r == Query.FilterTasks(criteria, actor, users, tasks)
    {
      r := Query.FilterTasks(criteria, actor, users, tasks);
    }
  }

  /** Two sign-ins get ids 1 and 2; signing in again with the first
      identity inserts nothing and yields id 1 again. */
  method SignInScenario(a: Directory.Identity, b: Directory.Identity)
    requires a.email != b.email
  {
    var store := new Store();
    var ida := store.Index(a);
    assert store.users == map[1 := Directory.NewUser(a)];
    var idb := store.Index(b);
    var again := store.Index(a);
    assert ida == 1 && idb == 2 && again == 1 && store.nextUserId == 3;
  }

  /** A creates a task; B, whom A named as manager, may change its status;
      user 3, who is neither, is refused; a blank comment is refused. */
  method ManagerOverrideScenario(a: Directory.Identity, b: Directory.Identity, now: Timestamp)
    requires a.email != b.email
  {
    var store := new Store();
    var ida := store.Index(a);
    assert store.users == map[1 := Directory.NewUser(a)];
    var idb := store.Index(b);
    assert ida == 1 && idb == 2;
    var r := store.SelectManager(ida, Some(idb));
    assert r == Message(ManagerUpdated);
    r := store.CreateTask(ida, now, Tasks.NewTask(Some("report"), None, Pending, None, None));
    assert r == Created(1);
    var toAcknowledged := Tasks.EmptyPatch.(status := Tasks.Provided(Acknowledged));
    r := store.EditTask(3, 1, toAcknowledged);
    assert r == Error(NotAuthorized) && store.tasks[1].status == Pending;
    r := store.EditTask(idb, 1, toAcknowledged);
    assert r == Message(TaskUpdated) && store.tasks[1].status == Acknowledged;
    r := store.AddComment(3, now, 1, Some(""));
    assert r == Error(CommentRequired) && store.comments == [];
    r := store.DeleteTask(3, 7);
    assert r == Error(TaskNotFound);
  }
}
