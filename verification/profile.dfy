/**
 * The `/getUserProfile` route of node/router.js: 400 without a username, 404 for
 * a username no user has, and otherwise the first matching user's name and
 * email, that user's tasks in their original order, and ten points for each of
 * them whose status is exactly "Completed".
 */
module Profile {
  import opened Wrappers
  import opened Strings
  import opened Users

  /** An entry of the in-memory `tasks` array; only the owner and the status matter here. */
  datatype TaskRecord = TaskRecord(username: string, status: string, exponent: int)

  /** The reply: 400, 404, or 200 with the profile body. */
  datatype ProfileReply =
    | BadRequest
    | NotFound
    | Found(username: string, email: string, points: int, tasks: seq<TaskRecord>)

  const COMPLETED: string := "Completed"
  const POINTS_PER_TASK: int := 10

  function Status(r: ProfileReply): int {
    match r
    case BadRequest => 400
    case NotFound => 404
    case Found(_, _, _, _) => 200
  }

  /** `users.find(u => u.username === name)`: the first user with that name. */
  function FindUser(users: seq<User>, name: string): (r: Option<User>)
    ensures r.Some? <==> exists k :: 0 <= k < |users| && users[k].username == name
    ensures r.Some? ==> r.value.username == name && r.value in users
    ensures r.Some? ==> exists k :: && 0 <= k < |users| && users[k] == r.value
                                   && forall j :: 0 <= j < k ==> users[j].username != name
  {
    if users == [] then None
    else if users[0].username == name then Some(users[0])
    else
      var r := FindUser(users[1..], name);
      assert forall k :: 0 < k < |users| ==> users[k] == users[1..][k - 1];
      if r.Some? then FirstInTail(users, name, r.value); r else r
  }

  /** A first match in the tail, behind a head of another name, is a first match of the whole list. */
  lemma FirstInTail(users: seq<User>, name: string, u: User)
    requires users != [] && users[0].username != name
    requires exists k :: && 0 <= k < |users[1..]| && users[1..][k] == u
                         && forall j :: 0 <= j < k ==> users[1..][j].username != name
    ensures exists k :: && 0 <= k < |users| && users[k] == u
                        && forall j :: 0 <= j < k ==> users[j].username != name
  {
    var k :| && 0 <= k < |users[1..]| && users[1..][k] == u
             && forall j :: 0 <= j < k ==> users[1..][j].username != name;
    forall j | 0 <= j < k + 1
      ensures users[j].username != name
    {
      if j > 0 {
        assert users[j] == users[1..][j - 1];
      }
    }
    assert users[k + 1] == u;
  }

  /** `tasks.filter(task => task.username === name)`. */
  function UserTasks(tasks: seq<TaskRecord>, name: string): (r: seq<TaskRecord>)
    ensures |r| <= |tasks|
    ensures forall t :: t in r <==> t in tasks && t.username == name
  {
    if tasks == [] then []
    else
      var rest := UserTasks(tasks[1..], name);
      assert forall t :: t in tasks <==> t == tasks[0] || t in tasks[1..];
      if tasks[0].username == name then [tasks[0]] + rest else rest
  }

  /** The number of tasks whose status is exactly "Completed". */
  function CompletedCount(tasks: seq<TaskRecord>): (n: nat)
    ensures n <= |tasks|
  {
    if tasks == [] then 0
    else (if tasks[0].status == COMPLETED then 1 else 0) + CompletedCount(tasks[1..])
  }

  /** `completedTasks.length * 10` for the user's tasks. */
  function Points(tasks: seq<TaskRecord>, name: string): int {
    POINTS_PER_TASK * CompletedCount(UserTasks(tasks, name))
  }

  lemma {:induction false} UserTasksConcat(a: seq<TaskRecord>, b: seq<TaskRecord>, name: string)
    ensures UserTasks(a + b, name) == UserTasks(a, name) + UserTasks(b, name)
  {
    if a == [] {
      assert a + b == b;
    } else {
      assert (a + b)[0] == a[0];
      assert (a + b)[1..] == a[1..] + b;
      UserTasksConcat(a[1..], b, name);
    }
  }

  lemma {:induction false} CompletedCountConcat(a: seq<TaskRecord>, b: seq<TaskRecord>)
    ensures CompletedCount(a + b) == CompletedCount(a) + CompletedCount(b)
  {
    if a == [] {
      assert a + b == b;
    } else {
      assert (a + b)[0] == a[0];
      assert (a + b)[1..] == a[1..] + b;
      CompletedCountConcat(a[1..], b);
    }
  }

  /**
   * Points add up over any split of the task list, and a single task is worth ten
   * exactly when it is the user's and completed: together these fix the points
   * of every list.
   */
  lemma PointsAdditive(a: seq<TaskRecord>, b: seq<TaskRecord>, name: string)
    ensures Points(a + b, name) == Points(a, name) + Points(b, name)
  {
    UserTasksConcat(a, b, name);
    CompletedCountConcat(UserTasks(a, name), UserTasks(b, name));
  }

  /** A single task is kept exactly when it is the user's; with UserTasksConcat this fixes the filter. */
  lemma UserTasksOfOne(t: TaskRecord, name: string)
    ensures UserTasks([t], name) == if t.username == name then [t] else []
  {
    assert [t][1..] == [];
  }

  lemma PointsOfOne(t: TaskRecord, name: string)
    ensures Points([t], name) == if t.username == name && t.status == COMPLETED then POINTS_PER_TASK else 0
  {
    assert [t][1..] == [];
  }

  /** The reply of `/getUserProfile` for the query parameter `username`. */
  function GetUserProfile(users: seq<User>, tasks: seq<TaskRecord>, username: Option<string>): (r: ProfileReply)
    ensures Status(r) == 400 <==> !Truthy(username)
    ensures Status(r) == 404 <==> Truthy(username) && forall k :: 0 <= k < |users| ==> users[k].username != username.value
    ensures r.Found? ==> r.username == username.value
    ensures r.Found? ==> exists k :: 0 <= k < |users| && users[k] == User(r.username, r.email)
    ensures r.Found? ==> forall t :: t in r.tasks <==> t in tasks && t.username == username.value
    ensures r.Found? ==> r.points % POINTS_PER_TASK == 0 && 0 <= r.points <= POINTS_PER_TASK * |r.tasks|
    ensures r.Found? ==> r.points == Points(tasks, username.value)
    ensures r.Found? ==> User(r.username, r.email) == FindUser(users, username.value).value
    ensures r.Found? ==> r.tasks == UserTasks(tasks, username.value)
  {
    if !Truthy(username) then BadRequest
    else
      match FindUser(users, username.value)
      case None => NotFound
      case Some(user) =>
        var mine := UserTasks(tasks, username.value);
        Found(user.username, user.email, POINTS_PER_TASK * CompletedCount(mine), mine)
  }
}
