/**
 * The task broker of node/TaskBroker.js as written: the message queue and the
 * dequeued list are doubly linked lists, modelled head first as sequences of
 * nodes. A node's task slot can be null (dequeue nulls the last node instead of
 * unlinking it), and a node carries the lease expiry once dequeue has stamped one.
 * A TypeError thrown part-way through an operation is an abrupt completion that
 * keeps every mutation made before the throw.
 */
module TaskBroker {
  import opened Wrappers

  /** Lease length added to the clock by `dequeue`, in milliseconds. */
  const LEASE_MILLIS: int := 60000

  /** `task`: an id compared with `===` and opaque task data. */
  datatype Task = Task(id: int, data: int)

  /** `node`: the task slot (null once dequeue has emptied it) and `experationTime`, if stamped. */
  datatype Node = Node(task: Option<Task>, expiry: Option<int>)

  /** `queue`: the nodes from head to tail; no head means the empty sequence. */
  type Queue = seq<Node>

  /** The message queue (ready work) and the dequeued list (leases). */
  datatype Lists = Lists(mq: Queue, dq: Queue)

  /** The JavaScript values these functions return. */
  datatype JsValue = Undefined | Null | Bool(b: bool) | TaskObject(task: Task)

  /** How a call ends: it returns a value, or throws after changing the state it leaves behind. */
  datatype Completion<S> = Normal(value: JsValue, state: S) | Abrupt(state: S)

  /** The node `new node(task)` builds: no expiry yet. */
  function NewNode(t: Task): Node {
    Node(Some(t), None)
  }

  /** The node holds a task with this id. */
  predicate HasId(n: Node, id: int) {
    n.task.Some? && n.task.value.id == id
  }

  // ---------------------------------------------------------------------------
  // Reference definitions: what is in a list, and what a search by id meets first.
  // ---------------------------------------------------------------------------

  /** The tasks in a list, head first, skipping nulled slots. */
  function Live(q: Queue): (ts: seq<Task>)
    ensures |ts| <= |q|
  {
    if q == [] then []
    else (if q[0].task.Some? then [q[0].task.value] else []) + Live(q[1..])
  }

  /** The ids of the tasks in a list, with multiplicity. */
  function IdBag(q: Queue): multiset<int> {
    if q == [] then multiset{}
    else (if q[0].task.Some? then multiset{q[0].task.value.id} else multiset{}) + IdBag(q[1..])
  }

  /** A scan from the head meets a node with this id before any null slot. */
  predicate Reaches(q: Queue, id: int) {
    q != [] && q[0].task.Some? && (q[0].task.value.id == id || Reaches(q[1..], id))
  }

  /** A scan from the head meets a null slot before any node with this id. */
  predicate Crashes(q: Queue, id: int) {
    q != [] && (q[0].task.None? || (q[0].task.value.id != id && Crashes(q[1..], id)))
  }

  /** The list without the first node that has this id. */
  function RemoveFirst(q: Queue, id: int): Queue {
    if q == [] then []
    else if HasId(q[0], id) then q[1..]
    else [q[0]] + RemoveFirst(q[1..], id)
  }

  /** The first node with this id. */
  function FirstWith(q: Queue, id: int): Node
    requires Reaches(q, id)
  {
    if HasId(q[0], id) then q[0] else FirstWith(q[1..], id)
  }

  // ---------------------------------------------------------------------------
  // The pointer-level operations.
  // ---------------------------------------------------------------------------

  /** What the `while (node)` search loop finds. */
  datatype Hit = Found(index: nat) | Missing | NullTask(index: nat)

  /** Every node before position n has a task, and none of those has this id. */
  predicate Clear(q: Queue, id: int, n: int)
    requires 0 <= n <= |q|
  {
    forall j :: 0 <= j < n ==> q[j].task.Some? && q[j].task.value.id != id
  }

  /** The search loop from position k: reading `node.task.id` of a null slot throws. */
  function LocateFrom(q: Queue, id: int, k: nat): (h: Hit)
    requires k <= |q| && Clear(q, id, k)
    ensures h.Found? ==> h.index < |q| && Clear(q, id, h.index) && HasId(q[h.index], id)
    ensures h.NullTask? ==> h.index < |q| && Clear(q, id, h.index) && q[h.index].task.None?
    ensures h.Missing? ==> Clear(q, id, |q|)
    decreases |q| - k
  {
    if k == |q| then Missing
    else if q[k].task.None? then NullTask(k)
    else if q[k].task.value.id == id then Found(k)
    else LocateFrom(q, id, k + 1)
  }

  function Locate(q: Queue, id: int): Hit {
    LocateFrom(q, id, 0)
  }

  /** Unlinking the node at position i: sole node, head, tail or interior node. */
  function Unlink(q: Queue, i: nat): (r: Queue)
    requires i < |q|
    ensures |r| == |q| - 1
    ensures forall j :: 0 <= j < i ==> r[j] == q[j]
    ensures forall j :: i <= j < |r| ==> r[j] == q[j + 1]
  {
    if |q| == 1 then []
    else if i == 0 then q[1..]
    else if i == |q| - 1 then q[..i]
    else q[..i] + q[i + 1..]
  }

  /** The search agrees with the reference scan, and unlinking what it finds removes the first match. */
  lemma {:induction false} LocateMeaning(q: Queue, id: int, h: Hit)
    requires h == Locate(q, id)
    ensures h.Found? <==> Reaches(q, id)
    ensures h.NullTask? <==> Crashes(q, id)
    ensures h.Found? ==> Unlink(q, h.index) == RemoveFirst(q, id) && q[h.index] == FirstWith(q, id)
  {
    match h
    case Found(i) => FoundMeaning(q, id, i);
    case NullTask(i) => NullMeaning(q, id, i);
    case Missing => MissingMeaning(q, id);
  }

  lemma {:induction false} FoundMeaning(q: Queue, id: int, i: nat)
    requires i < |q| && Clear(q, id, i) && HasId(q[i], id)
    ensures Reaches(q, id) && !Crashes(q, id)
    ensures RemoveFirst(q, id) == q[..i] + q[i + 1..] && FirstWith(q, id) == q[i]
  {
    if i > 0 {
      assert Clear(q[1..], id, i - 1);
      FoundMeaning(q[1..], id, i - 1);
      assert q[1..][..i - 1] == q[1..i];
      assert q[1..][i..] == q[i + 1..];
      assert q[..i] == [q[0]] + q[1..i];
    }
  }

  lemma {:induction false} NullMeaning(q: Queue, id: int, i: nat)
    requires i < |q| && Clear(q, id, i) && q[i].task.None?
    ensures Crashes(q, id) && !Reaches(q, id)
  {
    if i > 0 {
      assert Clear(q[1..], id, i - 1);
      NullMeaning(q[1..], id, i - 1);
    }
  }

  lemma {:induction false} MissingMeaning(q: Queue, id: int)
    requires Clear(q, id, |q|)
    ensures !Crashes(q, id) && !Reaches(q, id) && RemoveFirst(q, id) == q
  {
    if q != [] {
      assert Clear(q[1..], id, |q| - 1);
      MissingMeaning(q[1..], id);
    }
  }

  /** Unlinking a node takes exactly its id out of the list's ids. */
  lemma {:induction false} IdBagRemoveFirst(q: Queue, id: int)
    requires Reaches(q, id)
    ensures IdBag(RemoveFirst(q, id)) == IdBag(q) - multiset{id}
    ensures id in IdBag(q)
  {
    if !HasId(q[0], id) {
      IdBagRemoveFirst(q[1..], id);
    }
  }

  lemma {:induction false} IdBagConcat(a: Queue, b: Queue)
    ensures IdBag(a + b) == IdBag(a) + IdBag(b)
  {
    if a == [] {
      assert a + b == b;
    } else {
      var c := a + b;
      assert c[0] == a[0];
      assert c[1..] == a[1..] + b;
      IdBagConcat(a[1..], b);
      assert IdBag(c) == (if a[0].task.Some? then multiset{a[0].task.value.id} else multiset{}) + IdBag(c[1..]);
    }
  }

  lemma {:induction false} LiveConcat(a: Queue, b: Queue)
    ensures Live(a + b) == Live(a) + Live(b)
  {
    if a == [] {
      assert a + b == b;
    } else {
      var c := a + b;
      var head := if a[0].task.Some? then [a[0].task.value] else [];
      assert c[0] == a[0];
      assert c[1..] == a[1..] + b;
      LiveConcat(a[1..], b);
      assert Live(c) == head + Live(c[1..]);
      assert Live(a) == head + Live(a[1..]);
      assert head + (Live(a[1..]) + Live(b)) == (head + Live(a[1..])) + Live(b);
    }
  }

  // ---------------------------------------------------------------------------
  // The four exported operations.
  // ---------------------------------------------------------------------------

  /** `enqueue(queue, task)`: the new node becomes the tail; every existing node stays in place. */
  function Enqueue(q: Queue, t: Task): (r: Queue)
    ensures |r| == |q| + 1 && r[..|q|] == q && r[|q|] == NewNode(t)
    ensures q == [] ==> r == [NewNode(t)]
    ensures Live(r) == Live(q) + [t]
    ensures IdBag(r) == IdBag(q) + multiset{t.id}
  {
    LiveConcat(q, [NewNode(t)]);
    IdBagConcat(q, [NewNode(t)]);
    q + [NewNode(t)]
  }

  /**
   * `dequeue(mq, dq)` at clock `now`. On an empty message queue it returns null.
   * Otherwise it appends a lease around the head's task to the dequeued list; with
   * two or more nodes the head is unlinked, but a single node stays as head and
   * tail with its task nulled. It returns nothing, and throws at the closing log
   * line when the task it moved was null.
   */
  function Dequeue(s: Lists, now: int): (r: Completion<Lists>)
    ensures s.mq == [] ==> r == Normal(Null, s)
    ensures s.mq != [] ==> r.state.dq == s.dq + [Node(s.mq[0].task, Some(now + LEASE_MILLIS))]
    ensures |s.mq| >= 2 ==> r.state.mq == s.mq[1..]
    ensures |s.mq| == 1 ==> r.state.mq == [Node(None, s.mq[0].expiry)]
    ensures r.Abrupt? <==> s.mq != [] && s.mq[0].task.None?
    ensures r.Normal? ==> r.value == Undefined || r.value == Null
  {
    if s.mq == [] then Normal(Null, s)
    else
      var head := s.mq[0];
      var lease := Node(head.task, Some(now + LEASE_MILLIS));
      var mq := if |s.mq| == 1 then [head.(task := None)] else s.mq[1..];
      var dq := s.dq + [lease];
      if lease.task.None? then Abrupt(Lists(mq, dq)) else Normal(Undefined, Lists(mq, dq))
  }

  /**
   * `acknowledge(queue, taskId)`: null on an empty list; otherwise the first node
   * with the id is unlinked and true returned, or false with nothing changed. A
   * null slot met before the id makes the `task.id` read throw.
   */
  function Acknowledge(q: Queue, id: int): (r: Completion<Queue>)
    ensures q == [] ==> r == Normal(Null, q)
    ensures q != [] && Reaches(q, id) ==> r == Normal(Bool(true), RemoveFirst(q, id))
    ensures q != [] && Crashes(q, id) ==> r == Abrupt(q)
    ensures q != [] && !Reaches(q, id) && !Crashes(q, id) ==> r == Normal(Bool(false), q)
  {
    if q == [] then Normal(Null, q)
    else
      var h := Locate(q, id);
      LocateMeaning(q, id, h);
      match h
      case Found(i) => Normal(Bool(true), Unlink(q, i))
      case Missing => Normal(Bool(false), q)
      case NullTask(_) => Abrupt(q)
  }

  /**
   * `requeue(dq, mq, targetId)`: the first lease with the id is unlinked and
   * pushed onto the head of the message queue, keeping its expiry. On an empty
   * message queue the push dereferences the missing head and throws after the
   * lease was already unlinked.
   */
  function Requeue(s: Lists, id: int): (r: Completion<Lists>)
    ensures Reaches(s.dq, id) && s.mq != [] ==>
      r == Normal(Bool(true), Lists([FirstWith(s.dq, id)] + s.mq, RemoveFirst(s.dq, id)))
    ensures Reaches(s.dq, id) && s.mq == [] ==> r == Abrupt(Lists(s.mq, RemoveFirst(s.dq, id)))
    ensures Crashes(s.dq, id) ==> r == Abrupt(s)
    ensures !Reaches(s.dq, id) && !Crashes(s.dq, id) ==> r == Normal(Bool(false), s)
  {
    var h := Locate(s.dq, id);
    LocateMeaning(s.dq, id, h);
    match h
    case Found(i) =>
      var moved := s.dq[i];
      var dq := Unlink(s.dq, i);
      if s.mq == [] then Abrupt(Lists(s.mq, dq))
      else Normal(Bool(true), Lists([moved] + s.mq, dq))
    case Missing => Normal(Bool(false), s)
    case NullTask(_) => Abrupt(s)
  }
}
