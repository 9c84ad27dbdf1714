/**
 * How the as-written broker of node/TaskBroker.js relates to the repaired one.
 * A pair of linked lists represents a repaired state when the live tasks of the
 * message queue are the ready tasks and the dequeued list holds exactly the
 * leases. Enqueue, acknowledge, and dequeue from a queue whose head holds a task
 * all keep that correspondence. The as-written broker departs from it in exactly
 * two places: a dequeue that meets the null slot, and a requeue into an empty
 * message queue.
 */
module BrokerRefinement {
  import opened Wrappers
  import opened TaskBroker
  import TaskBrokerProperties
  import Broker

  /** The node of the dequeued list that stands for a lease. */
  function AsNode(l: Broker.Lease): Node {
    Node(Some(l.task), Some(l.expiresAt))
  }

  function Nodes(ls: seq<Broker.Lease>): (q: Queue)
    ensures |q| == |ls|
    ensures forall i :: 0 <= i < |ls| ==> q[i] == AsNode(ls[i])
  {
    seq(|ls|, i requires 0 <= i < |ls| => AsNode(ls[i]))
  }

  /** The linked lists `c` hold exactly the tasks and leases of the repaired state `a`. */
  predicate Represents(c: Lists, a: Broker.State) {
    Live(c.mq) == a.ready && c.dq == Nodes(a.leased)
  }

  lemma NodesAppend(ls: seq<Broker.Lease>, l: Broker.Lease)
    ensures Nodes(ls + [l]) == Nodes(ls) + [AsNode(l)]
  {
  }

  /**
   * Searching the dequeued list of a represented state never meets a null slot,
   * finds the id exactly when it is leased, and unlinks the oldest lease on it.
   */
  lemma SearchLeases(ls: seq<Broker.Lease>, id: int)
    ensures !Crashes(Nodes(ls), id)
    ensures Reaches(Nodes(ls), id) <==> id in Broker.LeaseIds(ls)
    ensures Reaches(Nodes(ls), id) ==>
      && Broker.Find(ls, id).Some?
      && RemoveFirst(Nodes(ls), id) == Nodes(Broker.Without(ls, Broker.Find(ls, id).value))
      && FirstWith(Nodes(ls), id) == AsNode(ls[Broker.Find(ls, id).value])
  {
    var q := Nodes(ls);
    match Broker.Find(ls, id)
    case Some(i) =>
      assert Clear(q, id, i);
      FoundMeaning(q, id, i);
      assert Nodes(Broker.Without(ls, i)) == q[..i] + q[i + 1..];
    case None =>
      forall j | 0 <= j < |q| ensures q[j].task.Some? && q[j].task.value.id != id {
        assert Broker.LeaseIds(ls)[j] == ls[j].task.id;
      }
      assert Clear(q, id, |q|);
      MissingMeaning(q, id);
  }

  /** Enqueueing keeps the correspondence. */
  lemma EnqueueRefines(c: Lists, a: Broker.State, t: Task)
    requires Represents(c, a)
    ensures Represents(Lists(Enqueue(c.mq, t), c.dq), Broker.Enqueue(a, t))
  {
  }

  /**
   * Dequeueing from a message queue whose head holds a task, or from an empty
   * one, completes normally and keeps the correspondence; it returns null exactly
   * when the repaired broker hands out nothing.
   */
  lemma DequeueRefines(c: Lists, a: Broker.State, now: int)
    requires Represents(c, a) && (c.mq == [] || c.mq[0].task.Some?)
    ensures var k := Dequeue(c, now);
      var f := Broker.Dequeue(a, now);
      && k.Normal?
      && (k.value == Null <==> f.task.None?)
      && Represents(k.state, f.state)
  {
    if c.mq != [] {
      var h := c.mq[0].task.value;
      assert Live(c.mq) == [h] + Live(c.mq[1..]);
      assert a.ready[0] == h && a.ready[1..] == Live(c.mq[1..]);
      if |c.mq| == 1 {
        assert Live([Node(None, c.mq[0].expiry)]) == [];
      }
      NodesAppend(a.leased, Broker.Lease(h, now + LEASE_MILLIS));
      var k := Dequeue(c, now);
      assert k.state.dq == c.dq + [Node(Some(h), Some(now + LEASE_MILLIS))];
    }
  }

  /**
   * A message queue whose head is the null slot while tasks are still queued
   * behind it: the as-written dequeue throws and leaves a null lease behind,
   * where the repaired broker hands out the next task.
   */
  lemma NullHeadDiverges(c: Lists, a: Broker.State, now: int)
    requires Represents(c, a) && c.mq != [] && c.mq[0].task.None?
    ensures Dequeue(c, now).Abrupt?
    ensures !TaskBrokerProperties.NoNulls(Dequeue(c, now).state.dq)
    ensures a.ready != [] ==> Broker.Dequeue(a, now).task == Some(a.ready[0])
    ensures a.ready == [] ==> Broker.Dequeue(a, now).task.None?
  {
    assert Dequeue(c, now).state.dq[|c.dq|].task.None?;
  }

  /** The state the stranding call sequence reaches is represented, and its head is the null slot. */
  lemma StrandedStateRepresented(t1: Task, t2: Task, now1: int)
    ensures var d1 := Dequeue(Lists(Enqueue([], t1), []), now1);
      var c := Lists(Enqueue(d1.state.mq, t2), d1.state.dq);
      var a := Broker.Enqueue(Broker.Dequeue(Broker.Enqueue(Broker.Empty(), t1), now1).state, t2);
      && Represents(c, a)
      && c.mq[0].task.None?
      && a.ready == [t2]
  {
    StrandedLists(t1, t2, now1);
    StrandedState(t1, t2, now1);
    StrandedPair(t1, t2, now1);
  }

  lemma StrandedPair(t1: Task, t2: Task, now1: int)
    ensures Represents(Lists([Node(None, None), NewNode(t2)], [Node(Some(t1), Some(now1 + LEASE_MILLIS))]),
                       Broker.State([t2], [Broker.Lease(t1, now1 + LEASE_MILLIS)]))
  {
    var l1 := Broker.Lease(t1, now1 + LEASE_MILLIS);
    assert [Node(None, None), NewNode(t2)][1..] == [NewNode(t2)];
    assert Nodes([l1]) == [AsNode(l1)];
  }

  lemma StrandedLists(t1: Task, t2: Task, now1: int)
    ensures var d1 := Dequeue(Lists(Enqueue([], t1), []), now1);
      Lists(Enqueue(d1.state.mq, t2), d1.state.dq)
        == Lists([Node(None, None), NewNode(t2)], [Node(Some(t1), Some(now1 + LEASE_MILLIS))])
  {
    var d1 := Dequeue(Lists(Enqueue([], t1), []), now1);
    assert d1.state == Lists([Node(None, None)], [Node(Some(t1), Some(now1 + LEASE_MILLIS))]) by {
      assert Enqueue([], t1) == [NewNode(t1)];
      assert [] + [Node(Some(t1), Some(now1 + LEASE_MILLIS))] == [Node(Some(t1), Some(now1 + LEASE_MILLIS))];
    }
  }

  lemma StrandedState(t1: Task, t2: Task, now1: int)
    ensures Broker.Enqueue(Broker.Dequeue(Broker.Enqueue(Broker.Empty(), t1), now1).state, t2)
      == Broker.State([t2], [Broker.Lease(t1, now1 + LEASE_MILLIS)])
  {
    assert Broker.Enqueue(Broker.Empty(), t1).ready == [t1];
    assert [] + [Broker.Lease(t1, now1 + LEASE_MILLIS)] == [Broker.Lease(t1, now1 + LEASE_MILLIS)];
  }

  /** Acknowledging completes normally, agrees on the answer, and keeps the correspondence. */
  lemma AcknowledgeRefines(c: Lists, a: Broker.State, id: int)
    requires Represents(c, a)
    ensures var k := Acknowledge(c.dq, id);
      var f := Broker.Acknowledge(a, id);
      && k.Normal?
      && (k.value == Bool(f.done) || (c.dq == [] && k.value == Null && !f.done))
      && Represents(Lists(c.mq, k.state), f.state)
  {
    SearchLeases(a.leased, id);
  }

  /**
   * Requeueing an id that is not leased, or into a non-empty message queue,
   * completes normally, agrees on the answer, and keeps the correspondence.
   */
  lemma RequeueRefines(c: Lists, a: Broker.State, id: int)
    requires Represents(c, a) && (c.mq != [] || id !in Broker.LeaseIds(a.leased))
    ensures var k := Requeue(c, id);
      var f := Broker.Requeue(a, id);
      && k.Normal?
      && k.value == Bool(f.done)
      && Represents(k.state, f.state)
  {
    SearchLeases(a.leased, id);
    if id in Broker.LeaseIds(a.leased) {
      var i := Broker.Find(a.leased, id).value;
      var n := AsNode(a.leased[i]);
      LiveConcat([n], c.mq);
      assert Live([n]) == [a.leased[i].task];
    }
  }

  /**
   * Requeueing a leased id into an empty message queue: the as-written broker
   * throws with the lease already unlinked, so the task is held nowhere; the
   * repaired broker makes it the only ready task.
   */
  lemma RequeueIntoEmptyDiverges(c: Lists, a: Broker.State, id: int)
    requires Represents(c, a) && c.mq == [] && id in Broker.LeaseIds(a.leased)
    ensures Requeue(c, id).Abrupt?
    ensures Requeue(c, id).state.mq == []
    ensures TaskBrokerProperties.HeldIds(Requeue(c, id).state) == TaskBrokerProperties.HeldIds(c) - multiset{id}
    ensures Broker.Requeue(a, id).done && Broker.Requeue(a, id).state.ready[0].id == id
    ensures Broker.Ids(Broker.Requeue(a, id).state) == Broker.Ids(a)
  {
    SearchLeases(a.leased, id);
    TaskBrokerProperties.RequeueIntoEmptyLosesTask(c, id);
  }
}
