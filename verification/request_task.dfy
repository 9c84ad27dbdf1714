/**
 * The `/api/requestTask` route of node/router.js: dequeue, answer 400 when the
 * result is falsy, and otherwise 200 with the task. The message queue and the
 * dequeued list are passed in explicitly.
 */
module RequestTask {
  import opened Wrappers
  import opened TaskBroker
  import Broker
  import BrokerRefinement

  /** An HTTP answer with the task it carries, if any; or an exception that escapes the handler. */
  datatype Answer = Answer(status: int, task: Option<Task>) | Uncaught

  datatype Served<S> = Served(answer: Answer, state: S)

  /** JavaScript falsiness of the values the broker returns. */
  predicate Falsy(v: JsValue) {
    v == Undefined || v == Null || v == Bool(false)
  }

  /**
   * The route as written, over the as-written broker. `dequeue` returns nothing
   * when it leases a task and null when there is none, so the reply is 400 either
   * way: a leased task is never sent to the client.
   */
  function RequestTask(s: Lists, now: int): (r: Served<Lists>)
    ensures r.state == Dequeue(s, now).state
    ensures r.answer == Uncaught <==> s.mq != [] && s.mq[0].task.None?
    ensures r.answer != Uncaught ==> r.answer == Answer(400, None)
    ensures s.mq != [] && s.mq[0].task.Some? ==>
      && r.answer == Answer(400, None)
      && |r.state.dq| == |s.dq| + 1
      && r.state.dq[|s.dq|].task == s.mq[0].task
  {
    match Dequeue(s, now)
    case Abrupt(st) => Served(Uncaught, st)
    case Normal(v, st) =>
      // The 200 branch would send `v` itself; `dequeue` never returns a truthy value.
      if Falsy(v) then Served(Answer(400, None), st) else Served(Answer(200, None), st)
  }

  /** The route over the repaired broker, whose dequeue hands back the task it leased. */
  function RequestTaskRepaired(a: Broker.State, now: int): (r: Served<Broker.State>)
    ensures r.state == Broker.Dequeue(a, now).state
    ensures a.ready == [] ==> r.answer == Answer(400, None) && r.state == a
    ensures a.ready != [] ==> r.answer == Answer(200, Some(a.ready[0]))
    ensures r.answer.Answer? && r.answer.status == 200 ==> r.answer.task.Some? && r.answer.task.value in a.ready
  {
    var d := Broker.Dequeue(a, now);
    match d.task
    case None => Served(Answer(400, None), d.state)
    case Some(t) => Served(Answer(200, Some(t)), d.state)
  }

  /**
   * On the same broker contents, the written route and the repaired one lease the
   * same task and leave corresponding lists, but only the repaired one answers 200.
   */
  lemma RequestTaskDiverges(c: Lists, a: Broker.State, now: int)
    requires BrokerRefinement.Represents(c, a) && c.mq != [] && c.mq[0].task.Some?
    ensures RequestTask(c, now).answer == Answer(400, None)
    ensures RequestTaskRepaired(a, now).answer == Answer(200, Some(c.mq[0].task.value))
    ensures BrokerRefinement.Represents(RequestTask(c, now).state, RequestTaskRepaired(a, now).state)
  {
    BrokerRefinement.DequeueRefines(c, a, now);
    assert Live(c.mq) == [c.mq[0].task.value] + Live(c.mq[1..]);
  }
}
