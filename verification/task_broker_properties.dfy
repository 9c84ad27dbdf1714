/**
 * What the as-written broker operations do to the ids held across both lists,
 * and the consequences of the null slot that dequeue leaves behind.
 */
module TaskBrokerProperties {
  import opened Wrappers
  import opened TaskBroker

  /** All ids held by the broker, in either list, with multiplicity. */
  function HeldIds(s: Lists): multiset<int> {
    IdBag(s.mq) + IdBag(s.dq)
  }

  /** No id is held twice, so in particular none is in both lists. */
  predicate UniqueIds(s: Lists) {
    forall x :: x in HeldIds(s) ==> HeldIds(s)[x] <= 1
  }

  /** Every node holds a task. */
  predicate NoNulls(q: Queue) {
    forall j :: 0 <= j < |q| ==> q[j].task.Some?
  }

  lemma UniqueMeansDisjoint(s: Lists, id: int)
    requires UniqueIds(s)
    ensures !(id in IdBag(s.mq) && id in IdBag(s.dq))
  {
    assert HeldIds(s)[id] <= 1;
  }

  /** Dequeue moves a task between the lists (or moves a null) and so keeps the ids held, thrown or not. */
  lemma {:induction false} DequeueKeepsIds(s: Lists, now: int)
    ensures HeldIds(Dequeue(s, now).state) == HeldIds(s)
  {
    if s.mq != [] {
      var r := Dequeue(s, now).state;
      var head := s.mq[0];
      var lease := Node(head.task, Some(now + LEASE_MILLIS));
      var h := IdBag([head]);
      assert IdBag(s.mq) == h + IdBag(s.mq[1..]) by {
        assert s.mq == [head] + s.mq[1..];
        IdBagConcat([head], s.mq[1..]);
      }
      assert IdBag(r.mq) == IdBag(s.mq[1..]) by {
        if |s.mq| == 1 {
          assert r.mq == [head.(task := None)];
          assert IdBag(r.mq) == multiset{};
        }
      }
      assert IdBag(r.dq) == IdBag(s.dq) + h by {
        assert r.dq == s.dq + [lease];
        IdBagConcat(s.dq, [lease]);
        assert IdBag([lease]) == h by {
          assert [lease][1..] == [] == [head][1..];
        }
      }
      calc {
        HeldIds(r);
        IdBag(r.mq) + IdBag(r.dq);
        IdBag(s.mq[1..]) + (IdBag(s.dq) + h);
        (h + IdBag(s.mq[1..])) + IdBag(s.dq);
        HeldIds(s);
      }
    }
  }

  /** Acknowledge takes exactly the acknowledged id out; on any other outcome the ids are unchanged. */
  lemma AcknowledgeIds(q: Queue, id: int)
    ensures var r := Acknowledge(q, id);
      && (r.Normal? && r.value == Bool(true) ==> IdBag(r.state) == IdBag(q) - multiset{id} && id in IdBag(q))
      && (!(r.Normal? && r.value == Bool(true)) ==> r.state == q)
  {
    if q != [] && Reaches(q, id) {
      IdBagRemoveFirst(q, id);
    }
  }

  /** A successful requeue moves the lease's id into the message queue, so the ids held are kept. */
  lemma RequeueKeepsIds(s: Lists, id: int)
    requires Requeue(s, id).Normal?
    ensures HeldIds(Requeue(s, id).state) == HeldIds(s)
  {
    if Reaches(s.dq, id) {
      var moved := FirstWith(s.dq, id);
      var rest := RemoveFirst(s.dq, id);
      assert Requeue(s, id).state == Lists([moved] + s.mq, rest);
      IdBagRemoveFirst(s.dq, id);
      FirstWithHasId(s.dq, id);
      IdBagConcat([moved], s.mq);
      assert IdBag([moved]) == multiset{id};
      assert IdBag(s.dq) == IdBag(rest) + multiset{id};
    }
  }

  /**
   * A requeue into an empty message queue throws after unlinking the lease, so
   * the id is no longer held anywhere: the task is lost.
   */
  lemma RequeueIntoEmptyLosesTask(s: Lists, id: int)
    requires Reaches(s.dq, id) && s.mq == []
    ensures Requeue(s, id).Abrupt?
    ensures id in HeldIds(s) && HeldIds(Requeue(s, id).state) == HeldIds(s) - multiset{id}
  {
    var rest := RemoveFirst(s.dq, id);
    assert Requeue(s, id) == Abrupt(Lists([], rest));
    IdBagRemoveFirst(s.dq, id);
    assert IdBag([]) == multiset{};
    assert HeldIds(s) == IdBag(s.dq);
    assert HeldIds(Lists([], rest)) == IdBag(rest);
  }

  lemma {:induction false} FirstWithHasId(q: Queue, id: int)
    requires Reaches(q, id)
    ensures HasId(FirstWith(q, id), id)
  {
    if !HasId(q[0], id) {
      FirstWithHasId(q[1..], id);
    }
  }

  /** Ids that never occur more than once in the larger bag do not in the smaller one either. */
  lemma UniqueSub(a: Lists, b: Lists)
    requires UniqueIds(a) && HeldIds(b) <= HeldIds(a)
    ensures UniqueIds(b)
  {
    forall x | x in HeldIds(b) ensures HeldIds(b)[x] <= 1 {
      assert HeldIds(a)[x] <= 1;
    }
  }

  /** Enqueueing a task whose id is not held keeps ids unique. */
  lemma EnqueueFreshKeepsUnique(s: Lists, t: Task)
    requires UniqueIds(s) && t.id !in HeldIds(s)
    ensures UniqueIds(Lists(Enqueue(s.mq, t), s.dq))
  {
    var e := Lists(Enqueue(s.mq, t), s.dq);
    assert HeldIds(e) == HeldIds(s) + multiset{t.id};
    forall x | x in HeldIds(e) ensures HeldIds(e)[x] <= 1 {
      if x != t.id {
        assert HeldIds(s)[x] <= 1;
      }
    }
  }

  /** Dequeue, acknowledge and requeue keep ids unique, whether they return or throw. */
  lemma OperationsKeepUnique(s: Lists, now: int, id: int)
    requires UniqueIds(s)
    ensures UniqueIds(Dequeue(s, now).state)
    ensures UniqueIds(Lists(s.mq, Acknowledge(s.dq, id).state))
    ensures UniqueIds(Requeue(s, id).state)
  {
    DequeueKeepsUnique(s, now);
    AcknowledgeKeepsUnique(s, id);
    RequeueKeepsUnique(s, id);
  }

  lemma DequeueKeepsUnique(s: Lists, now: int)
    requires UniqueIds(s)
    ensures UniqueIds(Dequeue(s, now).state)
  {
    DequeueKeepsIds(s, now);
    UniqueSub(s, Dequeue(s, now).state);
  }

  lemma AcknowledgeKeepsUnique(s: Lists, id: int)
    requires UniqueIds(s)
    ensures UniqueIds(Lists(s.mq, Acknowledge(s.dq, id).state))
  {
    var a := Acknowledge(s.dq, id);
    AcknowledgeIds(s.dq, id);
    assert HeldIds(Lists(s.mq, a.state)) <= HeldIds(s);
    UniqueSub(s, Lists(s.mq, a.state));
  }

  lemma RequeueKeepsUnique(s: Lists, id: int)
    requires UniqueIds(s)
    ensures UniqueIds(Requeue(s, id).state)
  {
    var r := Requeue(s, id);
    if r.Normal? {
      RequeueKeepsIds(s, id);
    } else if Reaches(s.dq, id) && s.mq == [] {
      RequeueIntoEmptyLosesTask(s, id);
    } else {
      assert r.state == s;
    }
    UniqueSub(s, r.state);
  }

  /** Past a list with no null slot and without the id, the scan reaches a node appended after it. */
  lemma {:induction false} ReachesAppended(q: Queue, n: Node, id: int)
    requires NoNulls(q) && id !in IdBag(q) && HasId(n, id)
    ensures Reaches(q + [n], id) && RemoveFirst(q + [n], id) == q
  {
    if q == [] {
      assert q + [n] == [n];
    } else {
      assert (q + [n])[0] == q[0];
      assert (q + [n])[1..] == q[1..] + [n];
      assert q == [q[0]] + q[1..];
      IdBagConcat([q[0]], q[1..]);
      ReachesAppended(q[1..], n, id);
    }
  }

  /**
   * A lease just taken by dequeue can be acknowledged at once, leaving the id in
   * neither list, provided the dequeued list holds no null slot and the ids are unique.
   */
  lemma DequeueThenAcknowledge(s: Lists, now: int)
    requires |s.mq| >= 1 && s.mq[0].task.Some? && NoNulls(s.dq) && UniqueIds(s)
    ensures var d := Dequeue(s, now);
      var id := s.mq[0].task.value.id;
      var a := Acknowledge(d.state.dq, id);
      && d.Normal?
      && a == Normal(Bool(true), s.dq)
      && id !in HeldIds(Lists(d.state.mq, a.state))
  {
    var t := s.mq[0].task.value;
    var d := Dequeue(s, now);
    var lease := Node(Some(t), Some(now + LEASE_MILLIS));
    assert d.state.dq == s.dq + [lease];
    assert s.mq == [s.mq[0]] + s.mq[1..];
    IdBagConcat([s.mq[0]], s.mq[1..]);
    assert HeldIds(s)[t.id] <= 1;
    ReachesAppended(s.dq, lease, t.id);
    DequeueKeepsIds(s, now);
    AcknowledgeIds(d.state.dq, t.id);
    assert HeldIds(d.state)[t.id] <= 1;
  }

  /** A null slot in the dequeued list makes every acknowledgement of a later lease throw. */
  lemma {:induction false} NullSlotBlocksLaterAcknowledge(a: Queue, b: Queue, e: Option<int>, id: int)
    requires NoNulls(a) && id !in IdBag(a)
    ensures Crashes(a + [Node(None, e)] + b, id)
    ensures Acknowledge(a + [Node(None, e)] + b, id).Abrupt?
  {
    var q := a + [Node(None, e)] + b;
    if a != [] {
      assert q[0] == a[0];
      assert q[1..] == a[1..] + [Node(None, e)] + b;
      assert a == [a[0]] + a[1..];
      IdBagConcat([a[0]], a[1..]);
      NullSlotBlocksLaterAcknowledge(a[1..], b, e, id);
    } else {
      assert q[0] == Node(None, e);
    }
  }

  /** Dequeue the given number of times at clock `now`, stopping at the first throw. */
  function DequeueTimes(s: Lists, n: nat, now: int): Completion<Lists>
    decreases n
  {
    if n == 0 then Normal(Undefined, s)
    else
      match Dequeue(s, now)
      case Abrupt(s') => Abrupt(s')
      case Normal(_, s') => DequeueTimes(s', n - 1, now)
  }

  /** The lease nodes dequeue builds for these nodes at clock `now`. */
  function LeasesFor(q: Queue, now: int): (r: Queue)
    ensures |r| == |q|
    ensures forall j :: 0 <= j < |q| ==> r[j] == Node(q[j].task, Some(now + LEASE_MILLIS))
  {
    if q == [] then [] else [Node(q[0].task, Some(now + LEASE_MILLIS))] + LeasesFor(q[1..], now)
  }

  /**
   * Draining a message queue of n task-holding nodes with n dequeues appends their
   * leases in queue order, and leaves the last node behind as a null slot.
   */
  lemma {:induction false} DrainInOrder(s: Lists, now: int)
    requires |s.mq| >= 1 && NoNulls(s.mq)
    ensures DequeueTimes(s, |s.mq|, now)
      == Normal(Undefined, Lists([Node(None, s.mq[|s.mq| - 1].expiry)], s.dq + LeasesFor(s.mq, now)))
    decreases |s.mq|
  {
    if |s.mq| == 1 {
      DrainOne(s, now);
    } else {
      var lease := Node(s.mq[0].task, Some(now + LEASE_MILLIS));
      var last := s.mq[|s.mq| - 1];
      var s' := Lists(s.mq[1..], s.dq + [lease]);
      var rest := LeasesFor(s.mq[1..], now);
      calc {
        DequeueTimes(s, |s.mq|, now);
        == { DequeueTimesStep(s, |s.mq|, now, s'); }
        DequeueTimes(s', |s'.mq|, now);
        == { NoNullsTail(s.mq);
             DrainInOrder(s', now); }
        Normal(Undefined, Lists([Node(None, last.expiry)], s.dq + [lease] + rest));
        == { LeasesForCons(s.dq, s.mq, now); }
        Normal(Undefined, Lists([Node(None, last.expiry)], s.dq + LeasesFor(s.mq, now)));
      }
    }
  }

  /** A single dequeue of a one-node message queue leaves the null slot and one lease. */
  lemma DrainOne(s: Lists, now: int)
    requires |s.mq| == 1 && s.mq[0].task.Some?
    ensures DequeueTimes(s, 1, now)
      == Normal(Undefined, Lists([Node(None, s.mq[0].expiry)], s.dq + LeasesFor(s.mq, now)))
  {
    var lease := Node(s.mq[0].task, Some(now + LEASE_MILLIS));
    var s' := Lists([Node(None, s.mq[0].expiry)], s.dq + [lease]);
    DequeueTimesStep(s, 1, now, s');
    assert LeasesFor(s.mq, now) == [lease];
  }

  lemma NoNullsTail(q: Queue)
    requires |q| >= 2 && NoNulls(q)
    ensures NoNulls(q[1..]) && q[1..][|q| - 2] == q[|q| - 1]
  {
  }

  lemma LeasesForCons(dq: Queue, q: Queue, now: int)
    requires q != []
    ensures dq + [Node(q[0].task, Some(now + LEASE_MILLIS))] + LeasesFor(q[1..], now) == dq + LeasesFor(q, now)
  {
    var lease := Node(q[0].task, Some(now + LEASE_MILLIS));
    assert LeasesFor(q, now) == [lease] + LeasesFor(q[1..], now);
    assert dq + [lease] + LeasesFor(q[1..], now) == dq + ([lease] + LeasesFor(q[1..], now));
  }

  /** One dequeue that completes normally, then the remaining ones. */
  lemma DequeueTimesStep(s: Lists, n: nat, now: int, next: Lists)
    requires n >= 1 && |s.mq| >= 1 && s.mq[0].task.Some?
    requires next == Lists(if |s.mq| == 1 then [Node(None, s.mq[0].expiry)] else s.mq[1..],
                           s.dq + [Node(s.mq[0].task, Some(now + LEASE_MILLIS))])
    ensures DequeueTimes(s, n, now) == DequeueTimes(next, n - 1, now)
  {
    assert Dequeue(s, now) == Normal(Undefined, next);
  }

  /** One fresh node per task, in order. */
  function FreshNodes(ts: seq<Task>): (q: Queue)
    ensures |q| == |ts|
    ensures forall j :: 0 <= j < |ts| ==> q[j] == NewNode(ts[j])
  {
    seq(|ts|, j requires 0 <= j < |ts| => NewNode(ts[j]))
  }

  /** Enqueue every task in order onto a queue: the fresh nodes go behind the existing ones. */
  function EnqueueAll(q: Queue, ts: seq<Task>): (r: Queue)
    ensures r == q + FreshNodes(ts)
    decreases |ts|
  {
    if ts == [] then
      assert FreshNodes(ts) == [];
      q
    else
      var r := EnqueueAll(Enqueue(q, ts[0]), ts[1..]);
      FreshNodesCons(q, ts);
      r
  }

  lemma FreshNodesCons(q: Queue, ts: seq<Task>)
    requires ts != []
    ensures q + [NewNode(ts[0])] + FreshNodes(ts[1..]) == q + FreshNodes(ts)
  {
    var f := FreshNodes(ts);
    var g := FreshNodes(ts[1..]);
    assert [NewNode(ts[0])] + g == f by {
      assert f[0] == NewNode(ts[0]);
      forall j | 1 <= j < |f| ensures f[j] == g[j - 1] {
        assert ts[1..][j - 1] == ts[j];
      }
    }
    assert q + [NewNode(ts[0])] + g == q + ([NewNode(ts[0])] + g);
  }

  lemma {:induction false} LiveLeases(q: Queue, now: int)
    ensures Live(LeasesFor(q, now)) == Live(q)
  {
    if q != [] {
      LiveLeases(q[1..], now);
      assert LeasesFor(q, now)[1..] == LeasesFor(q[1..], now);
    }
  }

  lemma {:induction false} LiveOfFresh(ts: seq<Task>, q: Queue)
    requires |q| == |ts| && forall j :: 0 <= j < |ts| ==> q[j] == NewNode(ts[j])
    ensures Live(q) == ts
  {
    if ts != [] {
      LiveOfFresh(ts[1..], q[1..]);
    }
  }

  /**
   * FIFO fairness: n enqueues onto an empty message queue followed by n dequeues
   * leave exactly those n tasks in the dequeued list, in enqueue order; the
   * message queue is left holding one null slot rather than being empty.
   */
  lemma EnqueueThenDrain(ts: seq<Task>, now: int)
    requires |ts| >= 1
    ensures var r := DequeueTimes(Lists(EnqueueAll([], ts), []), |ts|, now);
      && r.Normal?
      && Live(r.state.dq) == ts
      && r.state.mq == [Node(None, None)]
      && forall j :: 0 <= j < |r.state.dq| ==> r.state.dq[j].expiry == Some(now + LEASE_MILLIS)
  {
    var mq := EnqueueAll([], ts);
    var r := DequeueTimes(Lists(mq, []), |ts|, now);
    FreshQueue(ts, mq);
    assert r == Normal(Undefined, Lists([Node(None, None)], LeasesFor(mq, now))) by {
      DrainInOrder(Lists(mq, []), now);
      assert [] + LeasesFor(mq, now) == LeasesFor(mq, now);
    }
    assert Live(r.state.dq) == ts by {
      LiveLeases(mq, now);
    }
  }

  /** A queue built by enqueueing onto an empty one holds one fresh node per task, in order. */
  lemma FreshQueue(ts: seq<Task>, mq: Queue)
    requires |ts| >= 1 && mq == EnqueueAll([], ts)
    ensures |mq| == |ts| && NoNulls(mq) && mq[|mq| - 1].expiry == None && Live(mq) == ts
  {
    assert mq == FreshNodes(ts);
    LiveOfFresh(ts, mq);
  }

  /**
   * Enqueueing two tasks and dequeueing once moves the first to the tail of the
   * dequeued list and leaves the second at the head of the message queue.
   */
  lemma DequeueOfTwo(t1: Task, t2: Task, now: int)
    ensures var mq := Enqueue(Enqueue([], t1), t2);
      var d := Dequeue(Lists(mq, []), now);
      && mq[0].task == Some(t1)
      && d.Normal?
      && d.state.mq[0].task == Some(t2)
      && d.state.dq[|d.state.dq| - 1].task == Some(t1)
  {
    var mq := Enqueue(Enqueue([], t1), t2);
    assert mq == [NewNode(t1), NewNode(t2)];
  }

  /**
   * The null slot in action: enqueue t1, dequeue, enqueue t2, dequeue. The second
   * dequeue leases the null slot and throws; t2 is left alone in the message queue
   * and, once dequeued too, can never be acknowledged.
   */
  lemma PhantomScenario(t1: Task, t2: Task, now1: int, now2: int, now3: int)
    requires t1.id != t2.id
    ensures var d1 := Dequeue(Lists(Enqueue([], t1), []), now1);
      var d2 := Dequeue(Lists(Enqueue(d1.state.mq, t2), d1.state.dq), now2);
      var d3 := Dequeue(d2.state, now3);
      && d1 == Normal(Undefined, Lists([Node(None, None)], [Node(Some(t1), Some(now1 + LEASE_MILLIS))]))
      && d2 == Abrupt(Lists([NewNode(t2)],
                            [Node(Some(t1), Some(now1 + LEASE_MILLIS)), Node(None, Some(now2 + LEASE_MILLIS))]))
      && d3.Normal?
      && Acknowledge(d3.state.dq, t2.id).Abrupt?
      && Acknowledge(d3.state.dq, t1.id).Normal?
  {
    var l1 := Node(Some(t1), Some(now1 + LEASE_MILLIS));
    var hole := Node(None, Some(now2 + LEASE_MILLIS));
    var l2 := Node(Some(t2), Some(now3 + LEASE_MILLIS));
    assert Enqueue([], t1) == [NewNode(t1)];
    var d1 := Dequeue(Lists(Enqueue([], t1), []), now1);
    assert [] + [l1] == [l1];
    assert d1 == Normal(Undefined, Lists([Node(None, None)], [l1]));
    var mq2 := Enqueue(d1.state.mq, t2);
    assert mq2 == [Node(None, None), NewNode(t2)];
    assert mq2[1..] == [NewNode(t2)];
    assert [l1] + [hole] == [l1, hole];
    var d2 := Dequeue(Lists(mq2, d1.state.dq), now2);
    assert d2 == Abrupt(Lists([NewNode(t2)], [l1, hole]));
    assert [l1, hole] + [l2] == [l1, hole, l2];
    var d3 := Dequeue(d2.state, now3);
    assert d3 == Normal(Undefined, Lists([Node(None, None)], [l1, hole, l2]));
    assert d3.state.dq == [l1] + [hole] + [l2];
    assert IdBag([l1]) == multiset{t1.id};
    NullSlotBlocksLaterAcknowledge([l1], [l2], Some(now2 + LEASE_MILLIS), t2.id);
    assert Reaches(d3.state.dq, t1.id);
  }
}
