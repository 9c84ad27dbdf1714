/**
 * The task broker with the defects of node/TaskBroker.js repaired, over plain
 * sequences instead of linked nodes: the ready tasks in queue order and the leases
 * in the order they were granted. `Dequeue` hands the task it leased to its caller
 * and leaves no empty slot behind, and a requeue into an empty queue makes the task
 * the new head. The other modules relate the as-written broker to this one.
 */
module Broker {
  import opened Wrappers
  import TaskBroker

  type Task = TaskBroker.Task

  /** A task handed out, with the clock reading at which its lease runs out. */
  datatype Lease = Lease(task: Task, expiresAt: int)

  /** Ready tasks, head first, and granted leases, oldest first. */
  datatype State = State(ready: seq<Task>, leased: seq<Lease>)

  /** What `Dequeue` returns: the leased task, if any, and the new state. */
  datatype Taken = Taken(task: Option<Task>, state: State)

  /** What `Acknowledge` and `Requeue` return: whether the id was leased, and the new state. */
  datatype Outcome = Outcome(done: bool, state: State)

  function Empty(): State {
    State([], [])
  }

  // ---------------------------------------------------------------------------
  // Ids: what the broker holds, as a bag.
  // ---------------------------------------------------------------------------

  function TaskIds(ts: seq<Task>): (ids: seq<int>)
    ensures |ids| == |ts|
    ensures forall i :: 0 <= i < |ts| ==> ids[i] == ts[i].id
  {
    seq(|ts|, i requires 0 <= i < |ts| => ts[i].id)
  }

  function LeaseTasks(ls: seq<Lease>): (ts: seq<Task>)
    ensures |ts| == |ls|
    ensures forall i :: 0 <= i < |ls| ==> ts[i] == ls[i].task
  {
    seq(|ls|, i requires 0 <= i < |ls| => ls[i].task)
  }

  function LeaseIds(ls: seq<Lease>): (ids: seq<int>)
    ensures |ids| == |ls|
    ensures forall i :: 0 <= i < |ls| ==> ids[i] == ls[i].task.id
  {
    TaskIds(LeaseTasks(ls))
  }

  /** Every id the broker holds, ready or leased, with multiplicity. */
  function Ids(s: State): multiset<int> {
    multiset(TaskIds(s.ready)) + multiset(LeaseIds(s.leased))
  }

  /** No id is held twice. */
  predicate Unique(s: State) {
    forall x :: x in Ids(s) ==> Ids(s)[x] <= 1
  }

  /** The leases without the one at position i, the others in their order. */
  function Without(ls: seq<Lease>, i: nat): seq<Lease>
    requires i < |ls|
  {
    ls[..i] + ls[i + 1..]
  }

  lemma TaskIdsConcat(a: seq<Task>, b: seq<Task>)
    ensures TaskIds(a + b) == TaskIds(a) + TaskIds(b)
  {
  }

  lemma LeaseIdsConcat(a: seq<Lease>, b: seq<Lease>)
    ensures LeaseIds(a + b) == LeaseIds(a) + LeaseIds(b)
  {
  }

  /** Dropping position i of a sequence drops exactly that element from its bag. */
  lemma BagWithout(x: seq<int>, i: nat)
    requires i < |x|
    ensures multiset(x[..i] + x[i + 1..]) == multiset(x) - multiset{x[i]}
  {
    assert x == x[..i] + [x[i]] + x[i + 1..];
  }

  lemma LeaseIdsWithout(ls: seq<Lease>, i: nat)
    requires i < |ls|
    ensures multiset(LeaseIds(Without(ls, i))) == multiset(LeaseIds(ls)) - multiset{ls[i].task.id}
  {
    LeaseIdsConcat(ls[..i], ls[i + 1..]);
    assert LeaseIds(ls[..i]) == LeaseIds(ls)[..i];
    assert LeaseIds(ls[i + 1..]) == LeaseIds(ls)[i + 1..];
    BagWithout(LeaseIds(ls), i);
  }

  /** Moving the head of the ready queue to the back of the leases keeps the bag of ids. */
  lemma MoveHeadKeepsIds(s: State, next: State, now: int)
    requires s.ready != []
    requires next == State(s.ready[1..], s.leased + [Lease(s.ready[0], now + TaskBroker.LEASE_MILLIS)])
    ensures Ids(next) == Ids(s)
  {
    var x := s.ready[0].id;
    ReadyBagHead(s.ready);
    LeaseBagAppend(s.leased, Lease(s.ready[0], now + TaskBroker.LEASE_MILLIS));
    MoveOne(multiset(TaskIds(s.ready)), multiset(TaskIds(next.ready)),
            multiset(LeaseIds(s.leased)), multiset(LeaseIds(next.leased)), x);
  }

  lemma ReadyBagHead(ts: seq<Task>)
    requires ts != []
    ensures multiset(TaskIds(ts)) == multiset{ts[0].id} + multiset(TaskIds(ts[1..]))
  {
    TaskIdsHead(ts);
  }

  lemma TaskIdsHead(ts: seq<Task>)
    requires ts != []
    ensures TaskIds(ts) == [ts[0].id] + TaskIds(ts[1..])
  {
  }

  lemma LeaseBagAppend(ls: seq<Lease>, l: Lease)
    ensures multiset(LeaseIds(ls + [l])) == multiset(LeaseIds(ls)) + multiset{l.task.id}
  {
    LeaseIdsConcat(ls, [l]);
  }

  /** Moving one element from the first bag to the second keeps their union. */
  lemma MoveOne(a: multiset<int>, a': multiset<int>, b: multiset<int>, b': multiset<int>, x: int)
    requires a == multiset{x} + a' && b' == b + multiset{x}
    ensures a' + b' == a + b
  {
  }

  // ---------------------------------------------------------------------------
  // Searching the leases.
  // ---------------------------------------------------------------------------

  /** The first lease at or after position k whose task has this id. */
  function FindFrom(ls: seq<Lease>, id: int, k: nat): (r: Option<nat>)
    requires k <= |ls|
    requires forall j :: 0 <= j < k ==> ls[j].task.id != id
    ensures r.Some? ==> r.value < |ls| && ls[r.value].task.id == id
    ensures r.Some? ==> forall j :: 0 <= j < r.value ==> ls[j].task.id != id
    ensures r.None? ==> forall j :: 0 <= j < |ls| ==> ls[j].task.id != id
    decreases |ls| - k
  {
    if k == |ls| then None
    else if ls[k].task.id == id then Some(k)
    else FindFrom(ls, id, k + 1)
  }

  /** The position of the oldest lease on this id; none exactly when the id is not leased. */
  function Find(ls: seq<Lease>, id: int): (r: Option<nat>)
    ensures r.Some? <==> id in LeaseIds(ls)
    ensures r.Some? ==> r.value < |ls| && ls[r.value].task.id == id
    ensures r.Some? ==> forall j :: 0 <= j < r.value ==> ls[j].task.id != id
  {
    FindFrom(ls, id, 0)
  }

  /** The lease on this id that an acknowledgement or a requeue acts on: the oldest one. */
  predicate FirstLease(ls: seq<Lease>, id: int, i: int) {
    0 <= i < |ls| && ls[i].task.id == id && forall j :: 0 <= j < i ==> ls[j].task.id != id
  }

  // ---------------------------------------------------------------------------
  // The four operations.
  // ---------------------------------------------------------------------------

  /** The task joins the back of the ready queue. */
  function Enqueue(s: State, t: Task): (r: State)
    ensures r.ready == s.ready + [t] && r.leased == s.leased
    ensures Ids(r) == Ids(s) + multiset{t.id}
  {
    TaskIdsConcat(s.ready, [t]);
    State(s.ready + [t], s.leased)
  }

  /**
   * The head of the ready queue is leased until `now` plus the lease length and
   * handed to the caller; an empty queue hands out nothing and changes nothing.
   */
  function Dequeue(s: State, now: int): (r: Taken)
    ensures r.task.None? <==> s.ready == []
    ensures s.ready == [] ==> r.state == s
    ensures s.ready != [] ==>
      && r.task == Some(s.ready[0])
      && r.state.ready == s.ready[1..]
      && r.state.leased == s.leased + [Lease(s.ready[0], now + TaskBroker.LEASE_MILLIS)]
    ensures Ids(r.state) == Ids(s)
  {
    if s.ready == [] then Taken(None, s)
    else
      var t := s.ready[0];
      var next := State(s.ready[1..], s.leased + [Lease(t, now + TaskBroker.LEASE_MILLIS)]);
      MoveHeadKeepsIds(s, next, now);
      Taken(Some(t), next)
  }

  /** The oldest lease on the id is released for good; an id not leased changes nothing. */
  function Acknowledge(s: State, id: int): (r: Outcome)
    ensures r.done <==> id in LeaseIds(s.leased)
    ensures !r.done ==> r.state == s
    ensures r.done ==> r.state.ready == s.ready && Ids(r.state) == Ids(s) - multiset{id}
    ensures r.done ==> exists i :: FirstLease(s.leased, id, i) && r.state.leased == Without(s.leased, i)
  {
    match Find(s.leased, id)
    case None => Outcome(false, s)
    case Some(i) =>
      LeaseIdsWithout(s.leased, i);
      assert FirstLease(s.leased, id, i);
      Outcome(true, State(s.ready, Without(s.leased, i)))
  }

  /**
   * The oldest lease on the id is withdrawn and its task goes back to the head of
   * the ready queue, whether or not the queue is empty; an id not leased changes nothing.
   */
  function Requeue(s: State, id: int): (r: Outcome)
    ensures r.done <==> id in LeaseIds(s.leased)
    ensures !r.done ==> r.state == s
    ensures r.done ==> |r.state.ready| == |s.ready| + 1 && r.state.ready[1..] == s.ready
    ensures r.done ==> r.state.ready[0].id == id && Ids(r.state) == Ids(s)
    ensures r.done ==> exists i :: && FirstLease(s.leased, id, i)
                                   && r.state.ready[0] == s.leased[i].task
                                   && r.state.leased == Without(s.leased, i)
  {
    match Find(s.leased, id)
    case None => Outcome(false, s)
    case Some(i) =>
      var r := Outcome(true, State([s.leased[i].task] + s.ready, Without(s.leased, i)));
      RequeueAt(s, id, i, r.state);
      r
  }

  lemma RequeueAt(s: State, id: int, i: nat, q: State)
    requires FirstLease(s.leased, id, i)
    requires q == State([s.leased[i].task] + s.ready, Without(s.leased, i))
    ensures |q.ready| == |s.ready| + 1 && q.ready[1..] == s.ready
    ensures q.ready[0].id == id && Ids(q) == Ids(s)
  {
    var t := s.leased[i].task;
    LeaseIdsWithout(s.leased, i);
    TaskIdsConcat([t], s.ready);
    assert TaskIds([t]) == [id];
    calc {
      Ids(q);
      multiset(TaskIds([t]) + TaskIds(s.ready)) + multiset(LeaseIds(s.leased)) - multiset{id};
      multiset{id} + multiset(TaskIds(s.ready)) + multiset(LeaseIds(s.leased)) - multiset{id};
      Ids(s);
    }
  }
}
