/**
 * What the repaired broker promises across calls: ids are neither lost nor
 * duplicated, a lease can be settled exactly once, a requeue undoes a dequeue,
 * and tasks leave the ready queue in the order they joined it.
 */
module BrokerProperties {
  import opened Wrappers
  import TaskBroker
  import opened Broker

  /** A bag with no repeated element stays so when elements are taken out. */
  lemma UniqueSub(a: State, b: State)
    requires Unique(a) && Ids(b) <= Ids(a)
    ensures Unique(b)
  {
    forall x | x in Ids(b) ensures Ids(b)[x] <= 1 {
      assert Ids(b)[x] <= Ids(a)[x];
    }
  }

  /** Every operation keeps ids unique; enqueueing does so when the new id is not held yet. */
  lemma OperationsKeepUnique(s: State, t: Task, now: int, id: int)
    requires Unique(s)
    ensures t.id !in Ids(s) ==> Unique(Enqueue(s, t))
    ensures Unique(Dequeue(s, now).state)
    ensures Unique(Acknowledge(s, id).state)
    ensures Unique(Requeue(s, id).state)
  {
    if t.id !in Ids(s) {
      var e := Enqueue(s, t);
      forall x | x in Ids(e) ensures Ids(e)[x] <= 1 {
        assert Ids(e)[x] == Ids(s)[x] + multiset{t.id}[x];
      }
    }
    UniqueSub(s, Acknowledge(s, id).state);
  }

  /** The id at the head of the ready queue of a state without duplicates has no lease yet. */
  lemma HeadNotLeased(s: State)
    requires Unique(s) && s.ready != []
    ensures s.ready[0].id !in LeaseIds(s.leased)
  {
    var x := s.ready[0].id;
    assert TaskIds(s.ready)[0] == x;
    assert multiset(TaskIds(s.ready))[x] >= 1;
    assert x in Ids(s);
    assert multiset(LeaseIds(s.leased))[x] == 0;
  }

  /** A fresh lease appended behind leases on other ids is the one found, and removing it restores the list. */
  lemma FindAppended(ls: seq<Lease>, l: Lease)
    requires l.task.id !in LeaseIds(ls)
    ensures Find(ls + [l], l.task.id) == Some(|ls|)
    ensures Without(ls + [l], |ls|) == ls
  {
    var id := l.task.id;
    var r := Find(ls + [l], id);
    assert LeaseIds(ls + [l])[|ls|] == id;
    forall j | 0 <= j < |ls| ensures ls[j].task.id != id {
      assert LeaseIds(ls)[j] == ls[j].task.id;
    }
    assert (ls + [l])[..|ls|] == ls;
  }

  /** Dequeueing and then acknowledging the task handed out settles it: only the queue head is gone. */
  lemma DequeueThenAcknowledge(s: State, now: int)
    requires Unique(s) && s.ready != []
    ensures var d := Dequeue(s, now);
      && d.task == Some(s.ready[0])
      && Acknowledge(d.state, s.ready[0].id) == Outcome(true, State(s.ready[1..], s.leased))
  {
    HeadNotLeased(s);
    FindAppended(s.leased, Lease(s.ready[0], now + TaskBroker.LEASE_MILLIS));
  }

  /** Requeueing the task just dequeued puts the broker back exactly where it was. */
  lemma DequeueThenRequeue(s: State, now: int)
    requires Unique(s) && s.ready != []
    ensures Requeue(Dequeue(s, now).state, s.ready[0].id) == Outcome(true, s)
  {
    HeadNotLeased(s);
    FindAppended(s.leased, Lease(s.ready[0], now + TaskBroker.LEASE_MILLIS));
    assert [s.ready[0]] + s.ready[1..] == s.ready;
  }

  /** A settled lease cannot be settled again: a second acknowledgement finds nothing. */
  lemma AcknowledgeOnce(s: State, id: int)
    requires Unique(s)
    ensures var a := Acknowledge(s, id);
      a.done ==> !Acknowledge(a.state, id).done
  {
    var a := Acknowledge(s, id);
    if a.done {
      assert id in multiset(LeaseIds(s.leased));
      assert Ids(s)[id] >= 1;
      assert Ids(a.state)[id] == 0;
      if id in LeaseIds(a.state.leased) {
        assert false;
      }
    }
  }

  /** A requeued task is the next one handed out. */
  lemma RequeueThenDequeue(s: State, id: int, now: int)
    requires id in LeaseIds(s.leased)
    ensures var q := Requeue(s, id);
      && q.done
      && Dequeue(q.state, now).task.Some?
      && Dequeue(q.state, now).task.value.id == id
  {
  }

  // ---------------------------------------------------------------------------
  // First in, first out.
  // ---------------------------------------------------------------------------

  /** The leases a run of dequeues at one clock reading grants for these tasks, in order. */
  function LeasesAt(ts: seq<Task>, now: int): (ls: seq<Lease>)
    ensures |ls| == |ts|
  {
    if ts == [] then [] else [Lease(ts[0], now + TaskBroker.LEASE_MILLIS)] + LeasesAt(ts[1..], now)
  }

  datatype Drained = Drained(tasks: seq<Task>, state: State)

  /** Dequeue until the ready queue is empty, collecting what is handed out. */
  function Drain(s: State, now: int): Drained
    decreases |s.ready|
  {
    var d := Dequeue(s, now);
    if d.task.None? then Drained([], d.state)
    else
      var rest := Drain(d.state, now);
      Drained([d.task.value] + rest.tasks, rest.state)
  }

  /** Draining hands out the ready tasks in queue order and leases each of them. */
  lemma DrainInOrder(s: State, now: int)
    ensures Drain(s, now).tasks == s.ready
    ensures Drain(s, now).state == State([], s.leased + LeasesAt(s.ready, now))
  {
    DrainTasks(s, now);
    DrainState(s, now);
  }

  lemma {:induction false} DrainTasks(s: State, now: int)
    ensures Drain(s, now).tasks == s.ready
    decreases |s.ready|
  {
    if s.ready != [] {
      var next := State(s.ready[1..], s.leased + [Lease(s.ready[0], now + TaskBroker.LEASE_MILLIS)]);
      calc {
        Drain(s, now).tasks;
        == { DrainStep(s, now, next); }
        [s.ready[0]] + Drain(next, now).tasks;
        == { DrainTasks(next, now); }
        [s.ready[0]] + s.ready[1..];
        s.ready;
      }
    } else {
      DrainEmpty(s, now);
    }
  }

  lemma {:induction false} DrainState(s: State, now: int)
    ensures Drain(s, now).state == State([], s.leased + LeasesAt(s.ready, now))
    decreases |s.ready|
  {
    if s.ready != [] {
      var next := State(s.ready[1..], s.leased + [Lease(s.ready[0], now + TaskBroker.LEASE_MILLIS)]);
      calc {
        Drain(s, now).state;
        == { DrainStep(s, now, next); }
        Drain(next, now).state;
        == { DrainState(next, now); }
        State([], next.leased + LeasesAt(next.ready, now));
        == { LeasesAfterHead(s, now, next); }
        State([], s.leased + LeasesAt(s.ready, now));
      }
    } else {
      DrainEmpty(s, now);
    }
  }

  /** The lease granted for the head, followed by those for the rest, are the leases for all. */
  lemma LeasesAfterHead(s: State, now: int, next: State)
    requires s.ready != []
    requires next == State(s.ready[1..], s.leased + [Lease(s.ready[0], now + TaskBroker.LEASE_MILLIS)])
    ensures next.leased + LeasesAt(next.ready, now) == s.leased + LeasesAt(s.ready, now)
  {
    var l := Lease(s.ready[0], now + TaskBroker.LEASE_MILLIS);
    var tail := LeasesAt(s.ready[1..], now);
    assert LeasesAt(s.ready, now) == [l] + tail;
    assert s.leased + [l] + tail == s.leased + ([l] + tail);
  }

  lemma DrainStep(s: State, now: int, next: State)
    requires s.ready != []
    requires next == State(s.ready[1..], s.leased + [Lease(s.ready[0], now + TaskBroker.LEASE_MILLIS)])
    ensures Drain(s, now) == Drained([s.ready[0]] + Drain(next, now).tasks, Drain(next, now).state)
  {
    assert Dequeue(s, now) == Taken(Some(s.ready[0]), next);
  }

  lemma DrainEmpty(s: State, now: int)
    requires s.ready == []
    ensures Drain(s, now) == Drained([], State([], s.leased + LeasesAt(s.ready, now)))
  {
    assert s.leased + LeasesAt(s.ready, now) == s.leased;
  }


  function EnqueueAll(s: State, ts: seq<Task>): (r: State)
    decreases |ts|
  {
    if ts == [] then s else EnqueueAll(Enqueue(s, ts[0]), ts[1..])
  }

  lemma {:induction false} EnqueueAllAppends(s: State, ts: seq<Task>)
    ensures EnqueueAll(s, ts) == State(s.ready + ts, s.leased)
    decreases |ts|
  {
    if ts != [] {
      EnqueueAllAppends(Enqueue(s, ts[0]), ts[1..]);
      assert s.ready + [ts[0]] + ts[1..] == s.ready + ts;
    }
  }

  /** Tasks enqueued into an empty broker come back out in the order they went in. */
  lemma EnqueueThenDrain(ts: seq<Task>, now: int)
    ensures Drain(EnqueueAll(Empty(), ts), now).tasks == ts
    ensures Drain(EnqueueAll(Empty(), ts), now).state == State([], LeasesAt(ts, now))
  {
    EnqueueAllAppends(Empty(), ts);
    assert [] + ts == ts;
    DrainInOrder(State(ts, []), now);
    assert [] + LeasesAt(ts, now) == LeasesAt(ts, now);
  }

  /**
   * The call sequence that strands a task in the as-written broker: enqueue t1,
   * dequeue, enqueue t2, dequeue. Here the second dequeue hands out t2, and both
   * leases can be acknowledged.
   */
  lemma RepairedScenario(t1: Task, t2: Task, now1: int, now2: int)
    requires t1.id != t2.id
    ensures var d1 := Dequeue(Enqueue(Empty(), t1), now1);
      var d2 := Dequeue(Enqueue(d1.state, t2), now2);
      && d1.task == Some(t1)
      && d2.task == Some(t2)
      && Acknowledge(d2.state, t2.id).done
      && Acknowledge(d2.state, t1.id).done
  {
    var d1 := Dequeue(Enqueue(Empty(), t1), now1);
    var d2 := Dequeue(Enqueue(d1.state, t2), now2);
    assert LeaseIds(d2.state.leased)[0] == t1.id;
    assert LeaseIds(d2.state.leased)[1] == t2.id;
  }
}
