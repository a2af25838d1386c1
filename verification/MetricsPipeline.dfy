/**
The metrics pipeline: the queue's threads, one of which runs the consumer loop, and the monitors that come and go
under it (src/monitor/monitor_subscriber.cc:48-150, src/data/queue.tpp).
*/
module MetricsPipeline {
  import BlockingQueue
  import opened Monitor
  import opened Wrappers

  type Metrics = BlockingQueue.Elem -> seq<Event>

  /** The events of batches, in order. */
  function Flat(batches: seq<BlockingQueue.Elem>, metrics: Metrics): seq<Event> {
    if batches == [] then [] else Flat(batches[..|batches| - 1], metrics) + metrics(batches[|batches| - 1])
  }

  lemma {:induction false} FlatConcat(a: seq<BlockingQueue.Elem>, b: seq<BlockingQueue.Elem>, metrics: Metrics)
    ensures Flat(a + b, metrics) == Flat(a, metrics) + Flat(b, metrics)
    decreases |b|
  {
    if b == [] {
      assert a + b == a;
    } else {
      assert (a + b)[..|a + b| - 1] == a + b[..|b| - 1];
      FlatConcat(a, b[..|b| - 1], metrics);
    }
  }

  // ---------------------------------------------------------------- the system

  /** What became of an event: counted by one of the monitors, passed over for want of one, or lost to an exception. */
  datatype Fate = Counted(monitor: nat) | Skipped | Lost

  datatype Handled = Handled(event: Event, fate: Fate)

  datatype Fetch = NotFetched | Fetched(monitor: Option<nat>)

  /** The consumer is thread `consumer` of the queue; `rest` is what is left of the batch in its hands. */
  datatype Pipeline = Pipeline(
    refuses: Library,
    queue: BlockingQueue.State,
    consumer: BlockingQueue.Tid,
    alive: bool,
    rest: seq<Event>,
    fetch: Fetch,
    monitors: seq<map<string, nat>>,  // the counters of every monitor made so far
    current: Option<nat>,             // the one in place, if any
    handled: seq<Handled>             // history: what became of the events before `rest`
  )

  datatype Step =
    | QueueStep(step: BlockingQueue.Step)
    | StartConsumer
    | LeaveLoop
    | NewMonitor
    | DropMonitor
    | FetchMonitor
    | CountEvent

  /** Only the consumer pops, with nothing in hand, and it does nothing else to the queue. */
  predicate MayStep(p: Pipeline, step: BlockingQueue.Step) {
    && BlockingQueue.Enabled(p.queue, step) && !step.CallTryPop?
    && (step.CallPop? ==> step.t == p.consumer && p.alive && p.rest == [] && p.fetch.NotFetched?)
    && (step.t == p.consumer ==> step.CallPop? || step.Advance? || step.Notify? || step.Spurious?)
  }

  predicate Between(p: Pipeline) {
    p.consumer in p.queue.threads && p.queue.threads[p.consumer].Idle?
  }

  predicate Enabled(p: Pipeline, step: Step) {
    match step
    case QueueStep(s) => MayStep(p, s)
    case StartConsumer => !p.alive && Between(p)
    case LeaveLoop => p.alive && Between(p) && p.rest == []
    case FetchMonitor => p.alive && Between(p) && p.rest != [] && p.fetch.NotFetched?
    case CountEvent => p.alive && Between(p) && p.rest != [] && p.fetch.Fetched?
    case NewMonitor => true
    case DropMonitor => true
  }

  /** The counters after one event. */
  ghost function Bumped(counters: map<string, nat>, e: Event): map<string, nat> {
    var key := KeyOf(e.name, e.labels);
    counters[key := (if key in counters then counters[key] else 0) + Increment(e)]
  }

  function AllLost(events: seq<Event>): (h: seq<Handled>)
    ensures |h| == |events| && forall i | 0 <= i < |h| :: h[i] == Handled(events[i], Lost)
  {
    if events == [] then [] else AllLost(events[..|events| - 1]) + [Handled(events[|events| - 1], Lost)]
  }

  /** The event at hand: skipped without a monitor, and the end of the loop and of the batch if it is refused. */
  ghost function Count(p: Pipeline): Pipeline
    requires Enabled(p, CountEvent)
  {
    var e := p.rest[0];
    var next := p.(rest := p.rest[1..], fetch := NotFetched);
    match p.fetch.monitor
    case None => next.(handled := p.handled + [Handled(e, Skipped)])
    case Some(m) =>
      if m >= |p.monitors| then p
      else if Refused(p.refuses, p.monitors[m], e)
      then p.(alive := false, rest := [], fetch := NotFetched, handled := p.handled + AllLost(p.rest))
      else next.(monitors := p.monitors[m := Bumped(p.monitors[m], e)], handled := p.handled + [Handled(e, Counted(m))])
  }

  ghost function Apply(p: Pipeline, step: Step, metrics: Metrics): Pipeline
    requires Enabled(p, step)
  {
    match step
    case QueueStep(s) =>
      var q := BlockingQueue.Apply(p.queue, s);
      if |q.popped| > |p.queue.popped| then p.(queue := q, rest := p.rest + metrics(q.popped[|q.popped| - 1]))
      else p.(queue := q)
    case StartConsumer => p.(alive := true)
    case LeaveLoop => p.(alive := false)
    case NewMonitor => p.(monitors := p.monitors + [map[]], current := Some(|p.monitors|))
    case DropMonitor => p.(current := None)
    case FetchMonitor => p.(fetch := Fetched(p.current))
    case CountEvent => Count(p)
  }

  predicate Initial(p: Pipeline) {
    && BlockingQueue.Initial(p.queue) && !p.alive && p.rest == [] && p.fetch.NotFetched?
    && p.monitors == [] && p.current.None? && p.handled == []
  }

  ghost predicate Execution(p: Pipeline, steps: seq<Step>, end: Pipeline, metrics: Metrics)
    decreases |steps|
  {
    if steps == [] then end == p
    else Enabled(p, steps[0]) && Execution(Apply(p, steps[0], metrics), steps[1..], end, metrics)
  }

  // ---------------------------------------------------------------- what every step keeps

  function EventsOf(handled: seq<Handled>): seq<Event> {
    if handled == [] then [] else EventsOf(handled[..|handled| - 1]) + [handled[|handled| - 1].event]
  }

  /** The events with one fate, in order. */
  function Having(handled: seq<Handled>, fate: Fate): seq<Event> {
    if handled == [] then []
    else
      var last := handled[|handled| - 1];
      Having(handled[..|handled| - 1], fate) + if last.fate == fate then [last.event] else []
  }

  lemma EventsOfSnoc(handled: seq<Handled>, h: Handled)
    ensures EventsOf(handled + [h]) == EventsOf(handled) + [h.event]
    ensures forall fate :: Having(handled + [h], fate) ==
                           if h.fate == fate then Having(handled, fate) + [h.event] else Having(handled, fate)
  {
    assert (handled + [h])[..|handled|] == handled;
    assert forall fate :: Having(handled, fate) + [] == Having(handled, fate);
  }

  lemma {:induction false} AllLostAppended(handled: seq<Handled>, events: seq<Event>)
    ensures EventsOf(handled + AllLost(events)) == EventsOf(handled) + events
    ensures forall fate | fate != Lost :: Having(handled + AllLost(events), fate) == Having(handled, fate)
    decreases |events|
  {
    if events == [] {
      assert handled + [] == handled && EventsOf(handled) + events == EventsOf(handled);
    } else {
      var front, last := events[..|events| - 1], events[|events| - 1];
      AllLostAppended(handled, front);
      EventsOfSnoc(handled + AllLost(front), Handled(last, Lost));
      assert handled + AllLost(events) == (handled + AllLost(front)) + [Handled(last, Lost)];
      assert events == front + [last];
      assert EventsOf(handled) + front + [last] == EventsOf(handled) + events;
    }
  }

  /** Popped events are, in order, those handled and those in hand. */
  ghost predicate InOrder(p: Pipeline, metrics: Metrics) {
    Flat(p.queue.popped, metrics) == EventsOf(p.handled) + p.rest
  }

  /** Every monitor's counters are those of the events it counted. */
  ghost predicate CountersRight(p: Pipeline) {
    && Tallied(p.monitors, p.handled)
    && (p.current.Some? ==> p.current.value < |p.monitors|)
    && (p.fetch.Fetched? && p.fetch.monitor.Some? ==> p.fetch.monitor.value < |p.monitors|)
  }

  /**
  Only the consumer pops, and only with empty hands; what it holds is the end of the batch it popped last, and it does
  not leave its loop with anything in hand.
  */
  ghost predicate OneBatch(p: Pipeline, metrics: Metrics) {
    && (forall t | t in p.queue.threads && BlockingQueue.Popping(p.queue.threads[t]) ::
          t == p.consumer && p.alive && p.rest == [])
    && (!p.alive ==> p.rest == []) && (p.fetch.Fetched? ==> p.rest != [])
    && (p.rest != [] ==>
          && p.queue.popped != []
          && var batch := metrics(p.queue.popped[|p.queue.popped| - 1]);
             |p.rest| <= |batch| && p.rest == batch[|batch| - |p.rest|..])
  }

  /** An element is popped by a thread about to take it, one at a time. */
  lemma PoppedByTaker(q: BlockingQueue.State, step: BlockingQueue.Step)
    requires BlockingQueue.Enabled(q, step)
    ensures var q' := BlockingQueue.Apply(q, step);
            if |q'.popped| > |q.popped| then
              && step.Advance? && q.threads[step.t].TryBody? && q.queue != [] && q'.popped == q.popped + [q.queue[0]]
              && q'.threads == q.threads[step.t := BlockingQueue.TryNotify]
            else q'.popped == q.popped
  {
  }

  lemma PopperSelf(q: BlockingQueue.State, t: BlockingQueue.Tid)
    requires BlockingQueue.Enabled(q, BlockingQueue.Advance(t)) && t in BlockingQueue.AdvanceThread(q, t).threads
    requires BlockingQueue.Popping(BlockingQueue.AdvanceThread(q, t).threads[t])
    ensures BlockingQueue.Popping(q.threads[t])
  {
  }

  /** Nobody starts popping but by calling `pop`. */
  lemma PoppersStay(q: BlockingQueue.State, step: BlockingQueue.Step, u: BlockingQueue.Tid)
    requires BlockingQueue.Enabled(q, step) && !step.CallTryPop? && u in BlockingQueue.Apply(q, step).threads
    requires BlockingQueue.Popping(BlockingQueue.Apply(q, step).threads[u])
    ensures u in q.threads && (BlockingQueue.Popping(q.threads[u]) || (step.CallPop? && step.t == u))
  {
    BlockingQueue.ThreadsKept(q, step);
    if step.Advance? {
      if u == step.t {
        PopperSelf(q, u);
      } else {
        BlockingQueue.OthersStay(q, step.t, u);
      }
    }
  }

  lemma QueueKeepsOrder(p: Pipeline, step: BlockingQueue.Step, metrics: Metrics)
    requires InOrder(p, metrics) && MayStep(p, step)
    ensures InOrder(Apply(p, QueueStep(step), metrics), metrics)
  {
    PoppedByTaker(p.queue, step);
    var q := BlockingQueue.Apply(p.queue, step);
    if |q.popped| > |p.queue.popped| {
      assert q.popped[..|p.queue.popped|] == p.queue.popped;
      Regrouped(EventsOf(p.handled), p.rest, metrics(q.popped[|q.popped| - 1]));
    }
  }

  lemma Regrouped(a: seq<Event>, b: seq<Event>, c: seq<Event>)
    ensures a + b + c == a + (b + c)
  {
  }

  lemma CountKeepsOrder(p: Pipeline)
    requires Enabled(p, CountEvent)
    ensures EventsOf(Count(p).handled) + Count(p).rest == EventsOf(p.handled) + p.rest
  {
    var e := p.rest[0];
    assert p.rest == [e] + p.rest[1..];
    Regrouped(EventsOf(p.handled), [e], p.rest[1..]);
    match p.fetch.monitor
    case None => EventsOfSnoc(p.handled, Handled(e, Skipped));
    case Some(m) =>
      EventsOfSnoc(p.handled, Handled(e, Counted(m)));
      AllLostAppended(p.handled, p.rest);
      assert EventsOf(p.handled) + p.rest + [] == EventsOf(p.handled) + p.rest;
  }

  lemma InOrderStep(p: Pipeline, step: Step, metrics: Metrics)
    requires InOrder(p, metrics) && Enabled(p, step)
    ensures InOrder(Apply(p, step, metrics), metrics)
  {
    match step
    case QueueStep(s) => QueueKeepsOrder(p, s, metrics);
    case CountEvent => CountKeepsOrder(p);
    case _ =>
  }

  /** Every counter is that of the events that were counted by its monitor. */
  ghost predicate Tallied(monitors: seq<map<string, nat>>, handled: seq<Handled>) {
    && (forall m | 0 <= m < |monitors| :: monitors[m] == CountersAfter(Having(handled, Counted(m))))
    && (forall h | h in handled && h.fate.Counted? :: h.fate.monitor < |monitors|)
  }

  lemma PassedOver(monitors: seq<map<string, nat>>, handled: seq<Handled>, h: Handled)
    requires Tallied(monitors, handled) && !h.fate.Counted?
    ensures Tallied(monitors, handled + [h])
  {
    EventsOfSnoc(handled, h);
  }

  lemma {:induction false} AllLostTallied(monitors: seq<map<string, nat>>, handled: seq<Handled>, events: seq<Event>)
    requires Tallied(monitors, handled)
    ensures Tallied(monitors, handled + AllLost(events))
  {
    AllLostAppended(handled, events);
  }

  lemma BumpedIsCounted(events: seq<Event>, e: Event)
    ensures CountersAfter(events + [e]) == Bumped(CountersAfter(events), e)
  {
    CountersSnoc(events, e);
  }

  lemma CountedOnce(monitors: seq<map<string, nat>>, handled: seq<Handled>, m: nat, e: Event)
    requires Tallied(monitors, handled) && m < |monitors|
    ensures Tallied(monitors[m := Bumped(monitors[m], e)], handled + [Handled(e, Counted(m))])
  {
    var all := handled + [Handled(e, Counted(m))];
    EventsOfSnoc(handled, Handled(e, Counted(m)));
    forall k | 0 <= k < |monitors| && k != m ensures Having(all, Counted(k)) == Having(handled, Counted(k)) {
    }
    assert Having(all, Counted(m)) == Having(handled, Counted(m)) + [e];
    BumpedIsCounted(Having(handled, Counted(m)), e);
  }

  lemma CountKeepsRight(p: Pipeline)
    requires CountersRight(p) && Enabled(p, CountEvent)
    ensures CountersRight(Count(p))
  {
    var e := p.rest[0];
    match p.fetch.monitor
    case None => PassedOver(p.monitors, p.handled, Handled(e, Skipped));
    case Some(m) =>
      if m < |p.monitors| && Refused(p.refuses, p.monitors[m], e) {
        AllLostTallied(p.monitors, p.handled, p.rest);
      } else if m < |p.monitors| {
        CountedOnce(p.monitors, p.handled, m, e);
      }
  }

  lemma {:induction false} NoneCounted(handled: seq<Handled>, m: nat)
    requires forall h | h in handled :: h.fate != Counted(m)
    ensures Having(handled, Counted(m)) == []
    decreases |handled|
  {
    if handled != [] {
      NoneCounted(handled[..|handled| - 1], m);
    }
  }

  lemma CountersRightStep(p: Pipeline, step: Step, metrics: Metrics)
    requires CountersRight(p) && Enabled(p, step)
    ensures CountersRight(Apply(p, step, metrics))
  {
    match step
    case CountEvent => CountKeepsRight(p);
    case NewMonitor => NoneCounted(p.handled, |p.monitors|);
    case _ =>
  }

  lemma QueueKeepsOneBatch(p: Pipeline, step: BlockingQueue.Step, metrics: Metrics)
    requires OneBatch(p, metrics) && MayStep(p, step)
    ensures OneBatch(Apply(p, QueueStep(step), metrics), metrics)
  {
    var p' := Apply(p, QueueStep(step), metrics);
    PoppedByTaker(p.queue, step);
    forall u | u in p'.queue.threads && BlockingQueue.Popping(p'.queue.threads[u])
      ensures u == p.consumer && p'.alive && p'.rest == []
    {
      PoppersStay(p.queue, step, u);
    }
    if |p'.queue.popped| > |p.queue.popped| {
      assert p.rest == [] && p'.rest == metrics(p'.queue.popped[|p'.queue.popped| - 1]);
    }
  }

  lemma OneBatchStep(p: Pipeline, step: Step, metrics: Metrics)
    requires OneBatch(p, metrics) && Enabled(p, step)
    ensures OneBatch(Apply(p, step, metrics), metrics)
  {
    match step
    case QueueStep(s) => QueueKeepsOneBatch(p, s, metrics);
    case _ =>
  }

  lemma QueueKeepsHistory(q: BlockingQueue.State, step: BlockingQueue.Step)
    requires BlockingQueue.History(q) && BlockingQueue.Enabled(q, step)
    ensures BlockingQueue.History(BlockingQueue.Apply(q, step))
  {
    BlockingQueue.HistoryStep(q, step);
  }

  ghost predicate Sound(p: Pipeline, metrics: Metrics) {
    BlockingQueue.History(p.queue) && InOrder(p, metrics) && CountersRight(p) && OneBatch(p, metrics)
  }

  lemma HistoryKept(p: Pipeline, step: Step, metrics: Metrics)
    requires BlockingQueue.History(p.queue) && Enabled(p, step)
    ensures BlockingQueue.History(Apply(p, step, metrics).queue)
  {
    if step.QueueStep? {
      QueueKeepsHistory(p.queue, step.step);
    }
  }

  lemma IsSound(p: Pipeline, metrics: Metrics)
    requires BlockingQueue.History(p.queue) && InOrder(p, metrics) && CountersRight(p) && OneBatch(p, metrics)
    ensures Sound(p, metrics)
  {
  }

  lemma SoundStep(p: Pipeline, step: Step, metrics: Metrics)
    requires Sound(p, metrics) && Enabled(p, step)
    ensures Sound(Apply(p, step, metrics), metrics)
  {
    HistoryKept(p, step, metrics);
    InOrderStep(p, step, metrics);
    CountersRightStep(p, step, metrics);
    OneBatchStep(p, step, metrics);
    IsSound(Apply(p, step, metrics), metrics);
  }

  /** In every interleaving of producers, consumer, stops, starts and monitors that come and go. */
  lemma {:induction false} SoundRun(p: Pipeline, steps: seq<Step>, end: Pipeline, metrics: Metrics)
    requires Sound(p, metrics) && Execution(p, steps, end, metrics)
    ensures Sound(end, metrics)
    decreases |steps|
  {
    if steps != [] {
      SoundStep(p, steps[0], metrics);
      SoundRun(Apply(p, steps[0], metrics), steps[1..], end, metrics);
    }
  }

  lemma InitiallySound(p: Pipeline, metrics: Metrics)
    requires Initial(p)
    ensures Sound(p, metrics)
  {
  }

  // ---------------------------------------------------------------- what that means for the counters

  function Lookup(counters: map<string, nat>, key: string): nat {
    if key in counters then counters[key] else 0
  }

  /** What the first `n` monitors say about a key, together. */
  function AllMonitors(monitors: seq<map<string, nat>>, key: string, n: nat): nat
    requires n <= |monitors|
  {
    if n == 0 then 0 else AllMonitors(monitors, key, n - 1) + Lookup(monitors[n - 1], key)
  }

  /** The same from the events that the first `n` monitors counted. */
  function AllCounted(handled: seq<Handled>, name: string, labels: Labels, n: nat): nat {
    if n == 0 then 0
    else AllCounted(handled, name, labels, n - 1) + Total(Having(handled, Counted(n - 1)), name, labels)
  }

  lemma TotalSnoc(events: seq<Event>, e: Event, name: string, labels: Labels)
    ensures Total(events + [e], name, labels) ==
            Total(events, name, labels) + if About(e, name, labels) then Increment(e) else 0
  {
    assert (events + [e])[..|events|] == events;
  }

  lemma OneMore(handled: seq<Handled>, h: Handled, fate: Fate, name: string, labels: Labels)
    ensures Total(Having(handled + [h], fate), name, labels) ==
            Total(Having(handled, fate), name, labels)
            + if h.fate == fate && About(h.event, name, labels) then Increment(h.event) else 0
  {
    EventsOfSnoc(handled, h);
    TotalSnoc(Having(handled, fate), h.event, name, labels);
  }

  lemma {:induction false} AllCountedSnoc(handled: seq<Handled>, h: Handled, name: string, labels: Labels, n: nat)
    ensures AllCounted(handled + [h], name, labels, n) ==
            AllCounted(handled, name, labels, n)
            + if h.fate.Counted? && h.fate.monitor < n && About(h.event, name, labels) then Increment(h.event) else 0
    decreases n
  {
    if n > 0 {
      AllCountedSnoc(handled, h, name, labels, n - 1);
      OneMore(handled, h, Counted(n - 1), name, labels);
    }
  }

  /** Every handled event is counted once, skipped or lost. */
  lemma {:induction false} FatesAddUp(handled: seq<Handled>, name: string, labels: Labels, n: nat)
    requires forall h | h in handled && h.fate.Counted? :: h.fate.monitor < n
    ensures Total(EventsOf(handled), name, labels) ==
            AllCounted(handled, name, labels, n)
            + Total(Having(handled, Skipped), name, labels) + Total(Having(handled, Lost), name, labels)
    decreases |handled|
  {
    if handled == [] {
      NothingCounted(name, labels, n);
    } else {
      var front, last := handled[..|handled| - 1], handled[|handled| - 1];
      assert handled == front + [last];
      FatesAddUp(front, name, labels, n);
      AllCountedSnoc(front, last, name, labels, n);
      EventsOfSnoc(front, last);
      TotalSnoc(EventsOf(front), last.event, name, labels);
      OneMore(front, last, Skipped, name, labels);
      OneMore(front, last, Lost, name, labels);
      assert last in handled;
    }
  }

  lemma {:induction false} NothingCounted(name: string, labels: Labels, n: nat)
    ensures AllCounted([], name, labels, n) == 0
    decreases n
  {
    if n > 0 {
      NothingCounted(name, labels, n - 1);
    }
  }

  lemma {:induction false} HavingComesFrom(handled: seq<Handled>, fate: Fate)
    ensures forall e | e in Having(handled, fate) :: e in EventsOf(handled)
    decreases |handled|
  {
    if handled != [] {
      HavingComesFrom(handled[..|handled| - 1], fate);
    }
  }

  lemma MonitorSaysTotal(p: Pipeline, name: string, labels: Labels, m: nat)
    requires CountersRight(p) && m < |p.monitors| && AllClean(EventsOf(p.handled)) && Clean(name, labels)
    ensures Lookup(p.monitors[m], KeyOf(name, labels)) == Total(Having(p.handled, Counted(m)), name, labels)
  {
    HavingComesFrom(p.handled, Counted(m));
    CountersExact(Having(p.handled, Counted(m)), name, labels);
  }

  /** Monitor by monitor the counters say what was counted, hence all together. */
  lemma {:induction false} SumsAgree(monitors: seq<map<string, nat>>, handled: seq<Handled>, key: string,
                                     name: string, labels: Labels, n: nat)
    requires n <= |monitors|
    requires forall m | 0 <= m < n :: Lookup(monitors[m], key) == Total(Having(handled, Counted(m)), name, labels)
    ensures AllMonitors(monitors, key, n) == AllCounted(handled, name, labels, n)
    decreases n
  {
    if n > 0 {
      SumsAgree(monitors, handled, key, name, labels, n - 1);
    }
  }

  /** With clean names the monitors' counters are those totals. */
  lemma MonitorsSayTotals(p: Pipeline, name: string, labels: Labels)
    requires CountersRight(p) && AllClean(EventsOf(p.handled)) && Clean(name, labels)
    ensures AllMonitors(p.monitors, KeyOf(name, labels), |p.monitors|) ==
            AllCounted(p.handled, name, labels, |p.monitors|)
  {
    forall m | 0 <= m < |p.monitors|
      ensures Lookup(p.monitors[m], KeyOf(name, labels)) == Total(Having(p.handled, Counted(m)), name, labels)
    {
      MonitorSaysTotal(p, name, labels, m);
    }
    SumsAgree(p.monitors, p.handled, KeyOf(name, labels), name, labels, |p.monitors|);
  }

  /**
  At any moment of any run every accepted event is accounted for.  In order, the accepted events are those handled,
  those in the consumer's hands, which are the end of a single batch, and those still queued.  For clean names,
  what was accepted under a name is what the counters of all monitors hold together, what was skipped while there
  was no monitor, what an exception lost, what is in hand, and what is queued.
  */
  lemma AcceptedEventsAreAccountedFor(start: Pipeline, steps: seq<Step>, p: Pipeline, metrics: Metrics, name: string,
                                      labels: Labels)
    requires Initial(start) && Execution(start, steps, p, metrics)
    ensures OneBatch(p, metrics)
    ensures Flat(p.queue.accepted, metrics) == EventsOf(p.handled) + p.rest + Flat(p.queue.queue, metrics)
    ensures AllClean(EventsOf(p.handled)) && Clean(name, labels) ==>
              Total(Flat(p.queue.accepted, metrics), name, labels) ==
              AllMonitors(p.monitors, KeyOf(name, labels), |p.monitors|)
              + Total(Having(p.handled, Skipped), name, labels) + Total(Having(p.handled, Lost), name, labels)
              + Total(p.rest, name, labels) + Total(Flat(p.queue.queue, metrics), name, labels)
  {
    InitiallySound(start, metrics);
    SoundRun(start, steps, p, metrics);
    FlatConcat(p.queue.popped, p.queue.queue, metrics);
    if AllClean(EventsOf(p.handled)) && Clean(name, labels) {
      TotalConcat(EventsOf(p.handled) + p.rest, Flat(p.queue.queue, metrics), name, labels);
      TotalConcat(EventsOf(p.handled), p.rest, name, labels);
      FatesAddUp(p.handled, name, labels, |p.monitors|);
      MonitorsSayTotals(p, name, labels);
    }
  }
}
