/**
 * The database queries and the cookie test that the route handlers of
 * `app/main.py` share: look a user up by email, look a task up by id, and
 * the two row updates of the task actions.
 */
module Queries {
  import opened Wrappers
  import opened Models

  /** A cookie counts as set only when it holds a non-empty string (Python's `if not email`). */
  predicate Present(cookie: Option<string>): (b: bool)
    ensures !b <==> cookie == None || cookie == Some("")
  {
    cookie.Some? && cookie.value != ""
  }

  /** `db.query(User).filter(User.email == email).first()`. */
  function FindUserByEmail(users: seq<User>, email: string): (r: Option<User>)
    ensures r.Some? ==> r.value in users && r.value.email == email
    ensures r.None? <==> forall i :: 0 <= i < |users| ==> users[i].email != email
    ensures UniqueEmails(users) ==>
      forall i :: 0 <= i < |users| && users[i].email == email ==> r == Some(users[i])
  {
    if users == [] then None
    else if users[0].email == email then Some(users[0])
    else
      var r := FindUserByEmail(users[1..], email);
      assert forall i :: 0 < i < |users| ==> users[i] == users[1..][i - 1];
      r
  }

  /** The user the `user_email` cookie names, as the dashboard and `add_task` look it up. */
  function CurrentUser(users: seq<User>, cookie: Option<string>): (r: Option<User>)
    ensures r.Some? ==> Present(cookie) && r.value in users && r.value.email == cookie.value
    ensures r.None? <==> !Present(cookie) || forall i :: 0 <= i < |users| ==> users[i].email != cookie.value
  {
    if Present(cookie) then FindUserByEmail(users, cookie.value) else None
  }

  /** The position of `db.query(Task).filter(Task.id == task_id).first()`. */
  function FindTask(tasks: seq<Task>, id: int): (r: Option<nat>)
    ensures r.Some? ==> r.value < |tasks| && tasks[r.value].id == id
    ensures r.Some? ==> forall j :: 0 <= j < r.value ==> tasks[j].id != id
    ensures r.None? <==> forall j :: 0 <= j < |tasks| ==> tasks[j].id != id
  {
    if tasks == [] then None
    else if tasks[0].id == id then Some(0)
    else
      match FindTask(tasks[1..], id)
      case None =>
        assert forall j :: 0 < j < |tasks| ==> tasks[j] == tasks[1..][j - 1];
        None
      case Some(k) => Some(k + 1)
  }

  /** The tasks after `complete_task(id)`: the task with that id, if any, becomes Completed. */
  function MarkCompleted(tasks: seq<Task>, id: int): (r: seq<Task>)
    ensures |r| == |tasks|
    ensures forall i :: 0 <= i < |r| ==> r[i] == tasks[i] || r[i] == tasks[i].(status := Completed)
    ensures UniqueTaskIds(tasks) ==>
      forall i :: 0 <= i < |r| ==>
        r[i] == if tasks[i].id == id then tasks[i].(status := Completed) else tasks[i]
    ensures (forall i :: 0 <= i < |tasks| ==> tasks[i].id != id) ==> r == tasks
  {
    match FindTask(tasks, id)
    case None => tasks
    case Some(i) => tasks[i := tasks[i].(status := Completed)]
  }

  /** The tasks after `delete_task(id)`: the task with that id, if any, is gone. */
  function RemoveTask(tasks: seq<Task>, id: int): (r: seq<Task>)
    ensures (forall i :: 0 <= i < |tasks| ==> tasks[i].id != id) ==> r == tasks
    ensures (exists i :: 0 <= i < |tasks| && tasks[i].id == id) ==> |r| == |tasks| - 1
    ensures multiset(r) <= multiset(tasks)
    ensures UniqueTaskIds(tasks) ==> UniqueTaskIds(r)
    ensures UniqueTaskIds(tasks) ==> forall t :: t in r <==> t in tasks && t.id != id
  {
    match FindTask(tasks, id)
    case None => tasks
    case Some(i) =>
      RemoveAtCount(tasks, i);
      RemoveAtUnique(tasks, i);
      tasks[..i] + tasks[i + 1..]
  }

  lemma RemoveAtCount(tasks: seq<Task>, i: nat)
    requires i < |tasks|
    ensures multiset(tasks[..i] + tasks[i + 1..]) == multiset(tasks) - multiset{tasks[i]}
  {
    assert tasks == tasks[..i] + [tasks[i]] + tasks[i + 1..];
  }

  lemma RemoveAtUnique(tasks: seq<Task>, i: nat)
    requires i < |tasks|
    ensures UniqueTaskIds(tasks) ==> UniqueTaskIds(tasks[..i] + tasks[i + 1..])
    ensures UniqueTaskIds(tasks) ==>
      forall t :: t in tasks[..i] + tasks[i + 1..] <==> t in tasks && t.id != tasks[i].id
  {
    if UniqueTaskIds(tasks) {
      var r := tasks[..i] + tasks[i + 1..];
      assert forall j :: 0 <= j < |r| ==> r[j] == tasks[if j < i then j else j + 1];
      forall t ensures t in r <==> t in tasks && t.id != tasks[i].id {
        if t in tasks && t.id != tasks[i].id {
          var k :| 0 <= k < |tasks| && tasks[k] == t;
          assert r[if k < i then k else k - 1] == t;
        }
      }
    }
  }

  /** Completing a task twice is the same as completing it once. */
  lemma MarkCompletedIdempotent(tasks: seq<Task>, id: int)
    requires UniqueTaskIds(tasks)
    ensures MarkCompleted(MarkCompleted(tasks, id), id) == MarkCompleted(tasks, id)
  {
    var once := MarkCompleted(tasks, id);
    assert forall i :: 0 <= i < |once| ==> once[i].id == tasks[i].id;
    assert UniqueTaskIds(once);
  }

  /** Completing a task keeps every table constraint. */
  lemma MarkCompletedKeepsStore(users: seq<User>, tasks: seq<Task>, nextUserId: nat, nextTaskId: nat, id: int)
    requires ValidStore(users, tasks, nextUserId, nextTaskId)
    ensures ValidStore(users, MarkCompleted(tasks, id), nextUserId, nextTaskId)
  {
    var r := MarkCompleted(tasks, id);
    assert forall i :: 0 <= i < |r| ==> r[i].id == tasks[i].id && r[i].ownerId == tasks[i].ownerId;
  }

  /** Deleting a task keeps every table constraint. */
  lemma RemoveTaskKeepsStore(users: seq<User>, tasks: seq<Task>, nextUserId: nat, nextTaskId: nat, id: int)
    requires ValidStore(users, tasks, nextUserId, nextTaskId)
    ensures ValidStore(users, RemoveTask(tasks, id), nextUserId, nextTaskId)
  {
    var r := RemoveTask(tasks, id);
    forall j | 0 <= j < |r| ensures r[j].ownerId in UserIds(users) && r[j].id < nextTaskId {
      assert r[j] in multiset(tasks);
      var k :| 0 <= k < |tasks| && tasks[k] == r[j];
    }
  }
}
