/** The `comments` table: the blank-text rule of `add_comment` and the
    ordered read of `get_comments`. */
module Comments {
  import opened Schema

  /** `not comment_text`: a missing, null or empty comment. Text made of
      spaces is not blank. */
  predicate IsBlank(text: Option<string>) {
    text.None? || text.value == ""
  }

  predicate SortedByCreatedOn(s: seq<Comment>) {
    forall i, j :: 0 <= i < j < |s| ==> s[i].createdOn <= s[j].createdOn
  }

  /** `db(db.comments.task_id == taskId)`: the task's comments. */
  function OfTask(comments: seq<Comment>, taskId: TaskId): (r: seq<Comment>)
    ensures forall i :: 0 <= i < |r| ==> r[i].taskId == taskId
    ensures forall c :: multiset(r)[c] == if c.taskId == taskId then multiset(comments)[c] else 0
  {
    if comments == [] then []
    else
      var init, last := comments[..|comments| - 1], comments[|comments| - 1];
      assert comments == init + [last];
      OfTask(init, taskId) + (if last.taskId == taskId then [last] else [])
  }

  /** The comments left after `delete_task` removes `taskId`: the foreign
      key's `ON DELETE CASCADE` drops the task's comments with it. */
  function OfOtherTasks(comments: seq<Comment>, taskId: TaskId): (r: seq<Comment>)
    ensures forall i :: 0 <= i < |r| ==> r[i].taskId != taskId && r[i] in comments
    ensures forall c :: multiset(r)[c] == if c.taskId == taskId then 0 else multiset(comments)[c]
  {
    if comments == [] then []
    else
      var init, last := comments[..|comments| - 1], comments[|comments| - 1];
      assert comments == init + [last];
      OfOtherTasks(init, taskId) + (if last.taskId != taskId then [last] else [])
  }

  /** Puts `c` into a list sorted by `createdOn`, after the entries with the same time. */
  function Insert(c: Comment, s: seq<Comment>): (r: seq<Comment>)
    requires SortedByCreatedOn(s)
    ensures SortedByCreatedOn(r)
    ensures multiset(r) == multiset(s) + multiset{c}
    ensures |r| == |s| + 1 && (r[0] == c || (s != [] && r[0] == s[0]))
  {
    if s == [] then [c]
    else if c.createdOn < s[0].createdOn then [c] + s
    else
      assert s == [s[0]] + s[1..];
      var rest := Insert(c, s[1..]);
      assert forall k :: 0 <= k < |rest| ==> s[0].createdOn <= rest[k].createdOn by {
        assert s[0].createdOn <= rest[0].createdOn;
      }
      [s[0]] + rest
  }

  /** `orderby=db.comments.created_on`: the same comments, ascending by time.
      The order among comments with equal times is not stated. */
  function SortByCreatedOn(s: seq<Comment>): (r: seq<Comment>)
    ensures SortedByCreatedOn(r)
    ensures multiset(r) == multiset(s)
  {
    if s == [] then []
    else
      assert s == s[..|s| - 1] + [s[|s| - 1]];
      Insert(s[|s| - 1], SortByCreatedOn(s[..|s| - 1]))
  }

  /** What `get_comments` returns: exactly the comments of the task (each as
      often as it is stored), ascending by creation time. */
  function ForTask(comments: seq<Comment>, taskId: TaskId): (r: seq<Comment>)
    ensures SortedByCreatedOn(r)
    ensures forall c :: multiset(r)[c] == if c.taskId == taskId then multiset(comments)[c] else 0
    ensures forall i :: 0 <= i < |r| ==> r[i].taskId == taskId
  {
    var own := OfTask(comments, taskId);
    var r := SortByCreatedOn(own);
    assert forall i :: 0 <= i < |r| ==> r[i] in multiset(own);
    r
  }

  /** A new comment on a task shows up in that task's list, and the lists
      of other tasks are unchanged. */
  lemma AppendShowsOnlyOnItsTask(comments: seq<Comment>, c: Comment, taskId: TaskId)
    ensures multiset(ForTask(comments + [c], taskId)) ==
      multiset(ForTask(comments, taskId)) + (if c.taskId == taskId then multiset{c} else multiset{})
  {
    var a, b := ForTask(comments + [c], taskId), ForTask(comments, taskId);
    assert multiset(comments + [c]) == multiset(comments) + multiset{c};
    assert forall x :: multiset(a)[x] == multiset(b)[x] + (if c.taskId == taskId && x == c then 1 else 0);
  }
}
