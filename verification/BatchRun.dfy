/**
A batch on its way from the producer to the counters: one run of the whole pipeline, step by step.
*/
module BatchRun {
  import opened BlockingQueue
  import E = EventFates
  import opened Monitor
  import P = MetricsPipeline
  import opened Wrappers

  ghost predicate Leads(start: P.Pipeline, end: P.Pipeline, metrics: P.Metrics) {
    exists steps :: P.Execution(start, steps, end, metrics)
  }

  lemma {:induction false} Concat(start: P.Pipeline, first: seq<P.Step>, mid: P.Pipeline, second: seq<P.Step>,
                                  end: P.Pipeline, metrics: P.Metrics)
    requires P.Execution(start, first, mid, metrics) && P.Execution(mid, second, end, metrics)
    ensures P.Execution(start, first + second, end, metrics)
    decreases |first|
  {
    if first == [] {
      assert first + second == second;
    } else {
      assert (first + second)[1..] == first[1..] + second;
      Concat(P.Apply(start, first[0], metrics), first[1..], mid, second, end, metrics);
    }
  }

  lemma LeadsOn(start: P.Pipeline, mid: P.Pipeline, steps: seq<P.Step>, end: P.Pipeline, metrics: P.Metrics)
    requires Leads(start, mid, metrics) && P.Execution(mid, steps, end, metrics)
    ensures Leads(start, end, metrics)
  {
    var first :| P.Execution(start, first, mid, metrics);
    Concat(start, first, mid, steps, end, metrics);
  }

  lemma Step(start: P.Pipeline, mid: P.Pipeline, step: P.Step, end: P.Pipeline, metrics: P.Metrics)
    requires Leads(start, mid, metrics) && P.Enabled(mid, step) && P.Apply(mid, step, metrics) == end
    ensures Leads(start, end, metrics)
  {
    assert [step][1..] == [];
    assert P.Execution(end, [], end, metrics);
    LeadsOn(start, mid, [step], end, metrics);
  }

  /** A step of the queue that takes nothing out. */
  lemma QueueHop(start: P.Pipeline, p: P.Pipeline, q: State, step: BlockingQueue.Step, q': State, metrics: P.Metrics)
    requires Leads(start, p.(queue := q), metrics) && P.MayStep(p.(queue := q), step)
    requires BlockingQueue.Apply(q, step) == q' && q'.popped == q.popped
    ensures Leads(start, p.(queue := q'), metrics)
  {
    Step(start, p.(queue := q), P.QueueStep(step), p.(queue := q'), metrics);
  }

  /** The consumer, thread 1, is running with nothing in hand; thread 0 produces. */
  predicate Waiting(p: P.Pipeline) {
    p.consumer == 1 && p.alive && p.rest == [] && p.fetch.NotFetched?
  }

  // ---------------------------------------------------------------- the producer

  function Producer(queue: seq<Elem>, c: nat, owner: Option<Tid>, pc: PC): State {
    State(queue, c, false, owner, map[0 := pc, 1 := Idle], queue, [])
  }

  /** An internal step of the producer. */
  lemma ProducerHop(start: P.Pipeline, p: P.Pipeline, q: State, q': State, metrics: P.Metrics)
    requires Waiting(p) && Leads(start, p.(queue := q), metrics)
    requires BlockingQueue.Enabled(q, Advance(0)) && AdvanceThread(q, 0) == q' && q'.popped == q.popped
    ensures Leads(start, p.(queue := q'), metrics)
  {
    QueueHop(start, p, q, Advance(0), q', metrics);
  }

  lemma Guard(start: P.Pipeline, p: P.Pipeline, c: nat, b: Elem, metrics: P.Metrics)
    requires Waiting(p) && Leads(start, p.(queue := Producer([], c, None, Idle)), metrics)
    ensures Leads(start, p.(queue := Producer([], c, Some(0), FullTest(b))), metrics)
  {
    QueueHop(start, p, Producer([], c, None, Idle), CallProduce(0, b), Producer([], c, None, FullLock(b)), metrics);
    ProducerHop(start, p, Producer([], c, None, FullLock(b)), Producer([], c, Some(0), FullTest(b)), metrics);
  }

  lemma Enter(start: P.Pipeline, p: P.Pipeline, c: nat, b: Elem, metrics: P.Metrics)
    requires c > 0 && Waiting(p) && Leads(start, p.(queue := Producer([], c, Some(0), FullTest(b))), metrics)
    ensures Leads(start, p.(queue := Producer([], c, Some(0), PushTest(b, true))), metrics)
  {
    ProducerHop(start, p, Producer([], c, Some(0), FullTest(b)), Producer([], c, None, PushLock(b, true)), metrics);
    ProducerHop(start, p, Producer([], c, None, PushLock(b, true)), Producer([], c, Some(0), PushTest(b, true)),
                metrics);
  }

  lemma Store(start: P.Pipeline, p: P.Pipeline, c: nat, b: Elem, metrics: P.Metrics)
    requires c > 0 && Waiting(p) && Leads(start, p.(queue := Producer([], c, Some(0), PushTest(b, true))), metrics)
    ensures Leads(start, p.(queue := Producer([b], c, Some(0), PushNotify)), metrics)
  {
    ProducerHop(start, p, Producer([], c, Some(0), PushTest(b, true)), Producer([], c, Some(0), PushBody(b, true)),
                metrics);
    ProducerHop(start, p, Producer([], c, Some(0), PushBody(b, true)), Producer([b], c, Some(0), PushNotify), metrics);
  }

  lemma Leave(start: P.Pipeline, p: P.Pipeline, c: nat, b: Elem, metrics: P.Metrics)
    requires Waiting(p) && Leads(start, p.(queue := Producer([b], c, Some(0), PushNotify)), metrics)
    ensures Leads(start, p.(queue := Producer([b], c, None, Idle)), metrics)
  {
    QueueHop(start, p, Producer([b], c, Some(0), PushNotify), Notify(0, None), Producer([b], c, Some(0), PushExit),
             metrics);
    ProducerHop(start, p, Producer([b], c, Some(0), PushExit), Producer([b], c, None, Idle), metrics);
  }

  // ---------------------------------------------------------------- the consumer

  function Consumer(b: Elem, c: nat, owner: Option<Tid>, pc: PC): State {
    State([b], c, false, owner, map[0 := Idle, 1 := pc], [b], [])
  }

  /** When it has taken the batch. */
  function Taker(b: Elem, c: nat, owner: Option<Tid>, pc: PC): State {
    State([], c, false, owner, map[0 := Idle, 1 := pc], [b], [b])
  }

  lemma ConsumerHop(start: P.Pipeline, p: P.Pipeline, q: State, q': State, metrics: P.Metrics)
    requires p.consumer == 1 && Leads(start, p.(queue := q), metrics)
    requires BlockingQueue.Enabled(q, Advance(1)) && AdvanceThread(q, 1) == q' && q'.popped == q.popped
    ensures Leads(start, p.(queue := q'), metrics)
  {
    QueueHop(start, p, q, Advance(1), q', metrics);
  }

  lemma Ask(start: P.Pipeline, p: P.Pipeline, c: nat, b: Elem, metrics: P.Metrics)
    requires Waiting(p) && Leads(start, p.(queue := Producer([b], c, None, Idle)), metrics)
    ensures Leads(start, p.(queue := Consumer(b, c, Some(1), PopTest)), metrics)
  {
    assert Producer([b], c, None, Idle) == Consumer(b, c, None, Idle);
    QueueHop(start, p, Consumer(b, c, None, Idle), CallPop(1), Consumer(b, c, None, PopLock), metrics);
    ConsumerHop(start, p, Consumer(b, c, None, PopLock), Consumer(b, c, Some(1), PopTest), metrics);
  }

  lemma Pass(start: P.Pipeline, p: P.Pipeline, c: nat, b: Elem, metrics: P.Metrics)
    requires Waiting(p) && Leads(start, p.(queue := Consumer(b, c, Some(1), PopTest)), metrics)
    ensures Leads(start, p.(queue := Consumer(b, c, None, TryLock(true))), metrics)
  {
    ConsumerHop(start, p, Consumer(b, c, Some(1), PopTest), Consumer(b, c, Some(1), PopPass), metrics);
    ConsumerHop(start, p, Consumer(b, c, Some(1), PopPass), Consumer(b, c, None, TryLock(true)), metrics);
  }

  lemma Take(start: P.Pipeline, p: P.Pipeline, c: nat, b: Elem, metrics: P.Metrics)
    requires Waiting(p) && Leads(start, p.(queue := Consumer(b, c, None, TryLock(true))), metrics)
    ensures Leads(start, p.(queue := Taker(b, c, Some(1), TryNotify), rest := metrics(b)), metrics)
  {
    ConsumerHop(start, p, Consumer(b, c, None, TryLock(true)), Consumer(b, c, Some(1), TryBody(true)), metrics);
    var q := Consumer(b, c, Some(1), TryBody(true));
    assert AdvanceThread(q, 1) == Taker(b, c, Some(1), TryNotify);
    assert [] + metrics(b) == metrics(b);
    Step(start, p.(queue := q), P.QueueStep(Advance(1)),
         p.(queue := Taker(b, c, Some(1), TryNotify), rest := metrics(b)), metrics);
  }

  lemma Return(start: P.Pipeline, p: P.Pipeline, c: nat, b: Elem, metrics: P.Metrics)
    requires p.consumer == 1 && Leads(start, p.(queue := Taker(b, c, Some(1), TryNotify)), metrics)
    ensures Leads(start, p.(queue := Taker(b, c, None, Idle)), metrics)
  {
    QueueHop(start, p, Taker(b, c, Some(1), TryNotify), Notify(1, None), Taker(b, c, Some(1), TryExit), metrics);
    ConsumerHop(start, p, Taker(b, c, Some(1), TryExit), Taker(b, c, None, Idle), metrics);
  }

  // ---------------------------------------------------------------- all of it

  /** Two threads, an empty queue with room for `c`, no monitor, and the consumer, thread 1, not started. */
  function AtStart(refuses: Library, c: nat): P.Pipeline {
    P.Pipeline(refuses, Producer([], c, None, Idle), 1, false, [], P.NotFetched, [], None, [])
  }

  /** A monitor is made and the consumer started. */
  function Started(refuses: Library, c: nat): P.Pipeline {
    P.Pipeline(refuses, Producer([], c, None, Idle), 1, true, [], P.NotFetched, [map[]], Some(0), [])
  }

  lemma Starts(refuses: Library, c: nat, metrics: P.Metrics)
    ensures P.Initial(AtStart(refuses, c)) && Leads(AtStart(refuses, c), Started(refuses, c), metrics)
  {
    var p := AtStart(refuses, c);
    assert P.Execution(p, [], p, metrics);
    var withMonitor := p.(monitors := [map[]], current := Some(0));
    Step(p, p, P.NewMonitor, withMonitor, metrics);
    Step(p, withMonitor, P.StartConsumer, Started(refuses, c), metrics);
  }

  lemma Produced(start: P.Pipeline, p: P.Pipeline, c: nat, b: Elem, metrics: P.Metrics)
    requires c > 0 && Waiting(p) && Leads(start, p.(queue := Producer([], c, None, Idle)), metrics)
    ensures Leads(start, p.(queue := Producer([b], c, None, Idle)), metrics)
  {
    Guard(start, p, c, b, metrics);
    Enter(start, p, c, b, metrics);
    Store(start, p, c, b, metrics);
    Leave(start, p, c, b, metrics);
  }

  lemma Consumed(start: P.Pipeline, p: P.Pipeline, c: nat, b: Elem, metrics: P.Metrics)
    requires Waiting(p) && Leads(start, p.(queue := Producer([b], c, None, Idle)), metrics)
    ensures Leads(start, p.(queue := Taker(b, c, None, Idle), rest := metrics(b)), metrics)
  {
    Ask(start, p, c, b, metrics);
    Pass(start, p, c, b, metrics);
    Take(start, p, c, b, metrics);
    Return(start, p.(rest := metrics(b)), c, b, metrics);
  }

  /**
  From a stopped consumer, no monitor and an empty queue there is a run in which a batch gets through: a guarded push
  stores it, a pop takes it, and every event of it is counted by the monitor in place.
  */
  lemma BatchGetsThrough(refuses: Library, c: nat, b: Elem, metrics: P.Metrics) returns (end: P.Pipeline)
    requires c > 0 && forall e | e in metrics(b) :: E.Welcome(refuses, e)
    ensures P.Initial(AtStart(refuses, c)) && Leads(AtStart(refuses, c), end, metrics)
    ensures end.handled == E.AllCountedBy(metrics(b), 0) && end.rest == []
    ensures end.queue.accepted == end.queue.popped == [b] && end.queue.queue == []
  {
    var start, p := AtStart(refuses, c), Started(refuses, c);
    Starts(refuses, c, metrics);
    assert p.(queue := Producer([], c, None, Idle)) == p;
    Produced(start, p, c, b, metrics);
    Consumed(start, p, c, b, metrics);
    var taken := p.(queue := Taker(b, c, None, Idle), rest := metrics(b));
    end := E.BatchIsCounted(taken, 0, metrics);
    LeadsOn(start, taken, E.Rounds(|metrics(b)|), end, metrics);
    assert [] + E.AllCountedBy(metrics(b), 0) == E.AllCountedBy(metrics(b), 0);
  }
}
