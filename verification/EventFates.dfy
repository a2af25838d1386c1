/**
When the consumer may pass an event over or lose it, and that it counts all others (src/monitor/monitor_subscriber.cc).
*/
module EventFates {
  import BlockingQueue
  import opened MetricsPipeline
  import opened Monitor
  import opened Wrappers

  // ---------------------------------------------------------------- nothing is skipped while there is a monitor

  /** A monitor is in place, and the consumer has not just found none. */
  predicate InPlace(p: Pipeline) {
    p.current.Some? && !(p.fetch.Fetched? && p.fetch.monitor.None?)
  }

  /** What the step of an event adds is not skipped. */
  lemma CountedOrLost(p: Pipeline)
    requires InPlace(p) && Enabled(p, CountEvent)
    ensures Having(Count(p).handled, Skipped) == Having(p.handled, Skipped) && InPlace(Count(p))
  {
    EventsOfSnoc(p.handled, Handled(p.rest[0], Counted(p.fetch.monitor.value)));
    AllLostAppended(p.handled, p.rest);
  }

  lemma SkippedStep(p: Pipeline, step: Step, metrics: Metrics)
    requires InPlace(p) && Enabled(p, step) && !step.DropMonitor?
    ensures InPlace(Apply(p, step, metrics))
    ensures Having(Apply(p, step, metrics).handled, Skipped) == Having(p.handled, Skipped)
  {
    if step.CountEvent? {
      CountedOrLost(p);
    }
  }

  ghost predicate MonitorStays(steps: seq<Step>) {
    forall i | 0 <= i < |steps| :: !steps[i].DropMonitor?
  }

  /** As long as no monitor is dropped, no event is passed over, whatever the interleaving. */
  lemma {:induction false} NoneSkipped(p: Pipeline, steps: seq<Step>, end: Pipeline, metrics: Metrics)
    requires InPlace(p) && MonitorStays(steps) && Execution(p, steps, end, metrics)
    ensures Having(end.handled, Skipped) == Having(p.handled, Skipped) && InPlace(end)
    decreases |steps|
  {
    if steps != [] {
      SkippedStep(p, steps[0], metrics);
      NoneSkipped(Apply(p, steps[0], metrics), steps[1..], end, metrics);
    }
  }

  // ---------------------------------------------------------------- nothing is lost but to a refused event

  /** The event at hand is about to be refused by the monitor that was found. */
  ghost predicate RefusalDue(p: Pipeline) {
    && p.rest != [] && p.fetch.Fetched? && p.fetch.monitor.Some? && p.fetch.monitor.value < |p.monitors|
    && Refused(p.refuses, p.monitors[p.fetch.monitor.value], p.rest[0])
  }

  lemma {:induction false} AllLostHaving(handled: seq<Handled>, events: seq<Event>)
    ensures Having(handled + AllLost(events), Lost) == Having(handled, Lost) + events
    decreases |events|
  {
    if events == [] {
      assert handled + [] == handled;
    } else {
      var front, last := events[..|events| - 1], events[|events| - 1];
      AllLostHaving(handled, front);
      EventsOfSnoc(handled + AllLost(front), Handled(last, Lost));
      assert handled + AllLost(events) == (handled + AllLost(front)) + [Handled(last, Lost)];
      assert Having(handled, Lost) + events == Having(handled, Lost) + front + [last];
    }
  }

  lemma OneMoreNotLost(handled: seq<Handled>, e: Event, fate: Fate)
    requires fate != Lost
    ensures Having(handled + [Handled(e, fate)], Lost) == Having(handled, Lost)
  {
    EventsOfSnoc(handled, Handled(e, fate));
  }

  lemma LostAtCount(p: Pipeline)
    requires CountersRight(p) && Enabled(p, CountEvent)
    ensures Having(Count(p).handled, Lost) ==
            if RefusalDue(p) then Having(p.handled, Lost) + p.rest else Having(p.handled, Lost)
  {
    if RefusalDue(p) {
      AllLostHaving(p.handled, p.rest);
    } else {
      OneMoreNotLost(p.handled, p.rest[0],
                     if p.fetch.monitor.Some? then Counted(p.fetch.monitor.value) else Skipped);
    }
  }

  /** An exception takes the rest of the batch with it, and there is one exactly for a refused event. */
  lemma LostStep(p: Pipeline, step: Step, metrics: Metrics)
    requires CountersRight(p) && Enabled(p, step)
    ensures Having(Apply(p, step, metrics).handled, Lost) ==
            if step.CountEvent? && RefusalDue(p) then Having(p.handled, Lost) + p.rest else Having(p.handled, Lost)
  {
    if step.CountEvent? {
      LostAtCount(p);
    }
  }

  /** An event that no monitor refuses. */
  predicate Welcome(refuses: Library, e: Event) {
    !(e.name == "" && e.labels == map[]) && !refuses(e.name, e.labels)
  }

  ghost predicate AllWelcome(refuses: Library, batches: seq<BlockingQueue.Elem>, metrics: Metrics) {
    forall b, e | b in batches && e in metrics(b) :: Welcome(refuses, e)
  }

  lemma AcceptedGrows(p: Pipeline, step: Step, metrics: Metrics)
    requires Enabled(p, step)
    ensures p.queue.accepted <= Apply(p, step, metrics).queue.accepted && Apply(p, step, metrics).refuses == p.refuses
  {
    if step.QueueStep? {
      StoredAtEnd(p.queue, step.step);
    }
  }

  lemma StoredAtEnd(q: BlockingQueue.State, step: BlockingQueue.Step)
    requires BlockingQueue.Enabled(q, step)
    ensures q.accepted <= BlockingQueue.Apply(q, step).accepted
  {
  }

  lemma {:induction false} AcceptedStays(p: Pipeline, steps: seq<Step>, end: Pipeline, metrics: Metrics)
    requires Execution(p, steps, end, metrics)
    ensures p.queue.accepted <= end.queue.accepted && end.refuses == p.refuses
    decreases |steps|
  {
    if steps != [] {
      AcceptedGrows(p, steps[0], metrics);
      AcceptedStays(Apply(p, steps[0], metrics), steps[1..], end, metrics);
    }
  }

  /** What the consumer holds comes out of an accepted batch. */
  lemma HeldIsAccepted(p: Pipeline, metrics: Metrics)
    requires Sound(p, metrics) && p.rest != []
    ensures exists b :: b in p.queue.accepted && p.rest[0] in metrics(b)
  {
    var b := p.queue.popped[|p.queue.popped| - 1];
    assert b in p.queue.accepted;
    assert p.rest[0] == metrics(b)[|metrics(b)| - |p.rest|];
  }

  lemma NotLostStep(p: Pipeline, step: Step, metrics: Metrics)
    requires Sound(p, metrics) && Enabled(p, step) && AllWelcome(p.refuses, p.queue.accepted, metrics)
    ensures Having(Apply(p, step, metrics).handled, Lost) == Having(p.handled, Lost)
  {
    LostStep(p, step, metrics);
    if p.rest != [] {
      HeldIsAccepted(p, metrics);
      var b :| b in p.queue.accepted && p.rest[0] in metrics(b);
      assert Welcome(p.refuses, p.rest[0]);
    }
  }

  /** Where every accepted event is welcome none is lost, whatever the interleaving. */
  lemma {:induction false} NoneLost(p: Pipeline, steps: seq<Step>, end: Pipeline, metrics: Metrics)
    requires Sound(p, metrics) && Execution(p, steps, end, metrics)
    requires AllWelcome(p.refuses, end.queue.accepted, metrics)
    ensures Having(end.handled, Lost) == Having(p.handled, Lost)
    decreases |steps|
  {
    if steps != [] {
      AcceptedStays(p, steps, end, metrics);
      NotLostStep(p, steps[0], metrics);
      SoundStep(p, steps[0], metrics);
      AcceptedGrows(p, steps[0], metrics);
      NoneLost(Apply(p, steps[0], metrics), steps[1..], end, metrics);
    }
  }

  /**
  With a monitor made first and none dropped, and events that all are welcome, what was accepted under a clean name is
  what the counters hold, what is in hand and what is queued: nothing is passed over and nothing is lost.
  */
  lemma NothingMissing(start: Pipeline, steps: seq<Step>, p: Pipeline, metrics: Metrics, name: string, labels: Labels)
    requires Initial(start) && Execution(start, steps, p, metrics)
    requires steps != [] && steps[0].NewMonitor? && MonitorStays(steps)
    requires AllWelcome(start.refuses, p.queue.accepted, metrics)
    requires AllClean(EventsOf(p.handled)) && Clean(name, labels)
    ensures Total(Flat(p.queue.accepted, metrics), name, labels) ==
            AllMonitors(p.monitors, KeyOf(name, labels), |p.monitors|)
            + Total(p.rest, name, labels) + Total(Flat(p.queue.queue, metrics), name, labels)
  {
    InitiallySound(start, metrics);
    AcceptedEventsAreAccountedFor(start, steps, p, metrics, name, labels);
    AcceptedStays(start, steps, p, metrics);
    NoneLost(start, steps, p, metrics);
    NoneSkipped(Apply(start, NewMonitor, metrics), steps[1..], p, metrics);
  }

  // ---------------------------------------------------------------- an event that is taken is counted

  /** The value without its fraction. */
  predicate Whole(n: nat, value: real) {
    n as real <= value < n as real + 1.0
  }

  /** The monitor's counter for the event's own key has gone up by its value without the fraction. */
  ghost predicate Raised(before: map<string, nat>, after: map<string, nat>, e: Event) {
    exists n: nat ::
      && Whole(n, e.value)
      && after == before[KeyOf(e.name, e.labels) := Lookup(before, KeyOf(e.name, e.labels)) + n]
  }

  /** One round of the loop: it finds the monitor in place and counts the event there, and changes nothing else. */
  lemma RoundCounts(p: Pipeline, m: nat, metrics: Metrics)
    requires Enabled(p, FetchMonitor) && p.current == Some(m) && m < |p.monitors|
    requires !Refused(p.refuses, p.monitors[m], p.rest[0])
    ensures var fetched := Apply(p, FetchMonitor, metrics);
            && Enabled(fetched, CountEvent)
            && var p' := Apply(fetched, CountEvent, metrics);
               && |p'.monitors| == |p.monitors| && Raised(p.monitors[m], p'.monitors[m], p.rest[0])
               && p' == p.(monitors := p.monitors[m := p'.monitors[m]], rest := p.rest[1..],
                           handled := p.handled + [Handled(p.rest[0], Counted(m))])
  {
    var e := p.rest[0];
    var n: nat := Increment(e);
    assert Whole(n, e.value);
    assert Bumped(p.monitors[m], e) ==
           p.monitors[m][KeyOf(e.name, e.labels) := Lookup(p.monitors[m], KeyOf(e.name, e.labels)) + n];
  }

  /** Two steps for each of `n` events. */
  function Rounds(n: nat): seq<Step> {
    if n == 0 then [] else [FetchMonitor, CountEvent] + Rounds(n - 1)
  }

  function AllCountedBy(events: seq<Event>, m: nat): (h: seq<Handled>)
    ensures |h| == |events| && forall i | 0 <= i < |h| :: h[i] == Handled(events[i], Counted(m))
  {
    seq(|events|, i requires 0 <= i < |events| => Handled(events[i], Counted(m)))
  }

  lemma TwoSteps(p: Pipeline, first: Step, second: Step, rest: seq<Step>, end: Pipeline, metrics: Metrics)
    requires Enabled(p, first) && Enabled(Apply(p, first, metrics), second)
    requires Execution(Apply(Apply(p, first, metrics), second, metrics), rest, end, metrics)
    ensures Execution(p, [first, second] + rest, end, metrics)
  {
    var steps := [first, second] + rest;
    assert steps[1..] == [second] + rest && steps[1..][1..] == rest;
  }

  /** Ready for the next event, with monitor `m` in place. */
  predicate Ready(p: Pipeline, m: nat) {
    p.alive && Between(p) && p.fetch.NotFetched? && p.current == Some(m) && m < |p.monitors|
  }

  ghost function AfterRound(p: Pipeline, m: nat, metrics: Metrics): (p': Pipeline)
    requires Ready(p, m) && p.rest != []
    ensures p'.refuses == p.refuses
  {
    Apply(Apply(p, FetchMonitor, metrics), CountEvent, metrics)
  }

  lemma RoundGoesOn(p: Pipeline, m: nat, metrics: Metrics)
    requires Ready(p, m) && p.rest != [] && Welcome(p.refuses, p.rest[0])
    ensures var p' := AfterRound(p, m, metrics);
            && Ready(p', m) && p'.rest == p.rest[1..] && p'.handled == p.handled + [Handled(p.rest[0], Counted(m))]
            && p'.queue == p.queue && |p'.monitors| == |p.monitors|
  {
    RoundCounts(p, m, metrics);
  }

  lemma AllCountedByFirst(handled: seq<Handled>, events: seq<Event>, m: nat)
    requires events != []
    ensures handled + AllCountedBy(events, m) ==
            handled + [Handled(events[0], Counted(m))] + AllCountedBy(events[1..], m)
  {
  }

  /** The consumer gets through a batch of welcome events: all are counted by the monitor in place. */
  lemma {:induction false} BatchIsCounted(p: Pipeline, m: nat, metrics: Metrics) returns (end: Pipeline)
    requires Ready(p, m) && forall e | e in p.rest :: Welcome(p.refuses, e)
    ensures Execution(p, Rounds(|p.rest|), end, metrics)
    ensures Ready(end, m) && end.rest == [] && end.handled == p.handled + AllCountedBy(p.rest, m)
    ensures end.queue == p.queue
    decreases |p.rest|
  {
    if p.rest == [] {
      end := p;
      assert p.handled + AllCountedBy([], m) == p.handled;
    } else {
      assert p.rest[0] in p.rest;
      RoundGoesOn(p, m, metrics);
      var p' := AfterRound(p, m, metrics);
      end := BatchIsCounted(p', m, metrics);
      TwoSteps(p, FetchMonitor, CountEvent, Rounds(|p'.rest|), end, metrics);
      AllCountedByFirst(p.handled, p.rest, m);
    }
  }
}
