/**
The queue's accounts (src/data/queue.tpp): what became of every element offered and of every request for one, and that
a stopped queue keeps what it has.
*/
module QueueAccounts {
  import opened BlockingQueue

  // ---------------------------------------------------------------- a stopped queue

  /** While the flag is up nothing is stored and nothing is taken. */
  lemma StoppedStep(s: State, step: Step)
    requires s.stopped && Enabled(s, step) && !step.CallStart?
    ensures var s' := Apply(s, step);
            s'.stopped && s'.queue == s.queue && s'.popped == s.popped && s'.accepted == s.accepted
  {
  }

  /** From a stop on, until a start, the queue stays as it is, whatever any number of threads do. */
  lemma {:induction false} StoppedRun(s: State, steps: seq<Step>, end: State)
    requires s.stopped && StartFree(steps) && Execution(s, steps, end)
    ensures end.stopped && end.queue == s.queue && end.popped == s.popped && end.accepted == s.accepted
    decreases |steps|
  {
    if steps != [] {
      StoppedStep(s, steps[0]);
      StoppedRun(Apply(s, steps[0]), steps[1..], end);
    }
  }

  // ---------------------------------------------------------------- elements offered

  /** In the hands of a thread that has not stored it. */
  ghost predicate Carries(pc: PC, v: Elem) {
    && (pc.PushLock? || pc.PushTest? || pc.PushSleep? || pc.PushWait? || pc.PushWoken? || pc.PushBody?
        || pc.FullLock? || pc.FullTest?)
    && pc.value == v
  }

  ghost function Carriers(s: State, v: Elem): set<Tid> {
    set t | t in s.threads && Carries(s.threads[t], v)
  }

  /** The step is a call that offers `v`. */
  ghost predicate Offers(step: Step, v: Elem) {
    (step.CallPush? || step.CallProduce?) && step.v == v
  }

  /** The step gives `v` up: a push that meets the stop flag, or a guard that meets a full queue. */
  ghost predicate GivesUp(s: State, step: Step, v: Elem) {
    && step.Advance? && step.t in s.threads && Carries(s.threads[step.t], v)
    && ((s.threads[step.t].PushBody? && s.stopped) || (s.threads[step.t].FullTest? && |s.queue| >= s.capacity))
  }

  /** A step changes its own thread, and may wake others. */
  lemma OnlyOwn(s: State, step: Step, u: Tid)
    requires Enabled(s, step) && u in s.threads && u != step.t
    ensures u in Apply(s, step).threads
    ensures Apply(s, step).threads[u] == s.threads[u] || Apply(s, step).threads[u] == Wake(s.threads[u])
  {
    if step.Advance? {
      OthersStay(s, step.t, u);
    }
  }

  lemma CarriersAfter(s: State, step: Step, v: Elem)
    requires Enabled(s, step)
    ensures step.t in Apply(s, step).threads
    ensures Carriers(Apply(s, step), v) ==
            if Carries(Apply(s, step).threads[step.t], v) then Carriers(s, v) + {step.t} else Carriers(s, v) - {step.t}
  {
    ThreadsKept(s, step);
    forall u | u in s.threads && u != step.t
      ensures Carries(Apply(s, step).threads[u], v) == Carries(s.threads[u], v)
    {
      OnlyOwn(s, step, u);
    }
  }

  /** The account of the thread that steps: what it has been given, in hand and stored before, and after. */
  ghost predicate Balanced(s: State, step: Step, v: Elem, s': State)
    requires step.t in s.threads && step.t in s'.threads
  {
    One(Offers(step, v)) + One(Carries(s.threads[step.t], v)) + multiset(s.accepted)[v] ==
    multiset(s'.accepted)[v] + One(GivesUp(s, step, v)) + One(Carries(s'.threads[step.t], v))
  }

  lemma PushBalanced(s: State, t: Tid, v: Elem)
    requires Enabled(s, Advance(t)) && Producing(s.threads[t])
    ensures Balanced(s, Advance(t), v, AdvancePush(s, t))
  {
  }

  lemma OthersBalanced(s: State, step: Step, v: Elem)
    requires Enabled(s, step) && !(step.Advance? && Producing(s.threads[step.t])) && step.t in Apply(s, step).threads
    ensures Balanced(s, step, v, Apply(s, step))
  {
    assert Apply(s, step).accepted == s.accepted;
  }

  lemma OfferedAlone(s: State, step: Step, v: Elem)
    requires Enabled(s, step) && step.t in Apply(s, step).threads
    ensures Balanced(s, step, v, Apply(s, step))
  {
    if step.Advance? && Producing(s.threads[step.t]) {
      PushBalanced(s, step.t, v);
    } else {
      OthersBalanced(s, step, v);
    }
  }

  lemma OfferedStep(s: State, step: Step, v: Elem)
    requires Enabled(s, step)
    ensures One(Offers(step, v)) + |Carriers(s, v)| + multiset(s.accepted)[v] ==
            multiset(Apply(s, step).accepted)[v] + One(GivesUp(s, step, v)) + |Carriers(Apply(s, step), v)|
  {
    CarriersAfter(s, step, v);
    OfferedAlone(s, step, v);
    OneElement(Carriers(s, v), step.t, Carries(Apply(s, step).threads[step.t], v));
    assert step.t in Carriers(s, v) <==> Carries(s.threads[step.t], v);
  }

  /** How often `v` is offered in a run. */
  ghost function Offered(steps: seq<Step>, v: Elem): nat {
    if steps == [] then 0 else One(Offers(steps[0], v)) + Offered(steps[1..], v)
  }

  /** How often it is given up. */
  ghost function GivenUp(s: State, steps: seq<Step>, v: Elem): nat
    decreases |steps|
  {
    if steps == [] || !Enabled(s, steps[0]) then 0
    else One(GivesUp(s, steps[0], v)) + GivenUp(Apply(s, steps[0]), steps[1..], v)
  }

  /**
  In every interleaving each element offered is stored once, given up for a reason, or still in its thread's hands,
  and nothing else is ever stored.
  */
  lemma {:induction false} OffersAreAccountedFor(s: State, steps: seq<Step>, end: State, v: Elem)
    requires Execution(s, steps, end)
    ensures Offered(steps, v) + |Carriers(s, v)| + multiset(s.accepted)[v] ==
            multiset(end.accepted)[v] + GivenUp(s, steps, v) + |Carriers(end, v)|
    decreases |steps|
  {
    if steps != [] {
      OfferedStep(s, steps[0], v);
      OffersAreAccountedFor(Apply(s, steps[0]), steps[1..], end, v);
    }
  }

  // ---------------------------------------------------------------- requests

  ghost function Seekers(s: State): set<Tid> {
    set t | t in s.threads && Popping(s.threads[t])
  }

  predicate Asks(step: Step) {
    step.CallPop? || step.CallTryPop?
  }

  /** The step ends a request with nothing: the flag is up, or the queue is empty. */
  predicate GoesWithout(s: State, step: Step) {
    && step.Advance? && step.t in s.threads && s.threads[step.t].TryBody?
    && (s.stopped || s.queue == [])
  }

  lemma SeekersAfter(s: State, step: Step)
    requires Enabled(s, step)
    ensures step.t in Apply(s, step).threads
    ensures Seekers(Apply(s, step)) ==
            if Popping(Apply(s, step).threads[step.t]) then Seekers(s) + {step.t} else Seekers(s) - {step.t}
  {
    ThreadsKept(s, step);
    forall u | u in s.threads && u != step.t ensures Popping(Apply(s, step).threads[u]) == Popping(s.threads[u]) {
      OnlyOwn(s, step, u);
    }
  }

  ghost predicate Answered(s: State, step: Step, s': State)
    requires step.t in s.threads && step.t in s'.threads
  {
    One(Asks(step)) + One(Popping(s.threads[step.t])) + |s.popped| ==
    |s'.popped| + One(GoesWithout(s, step)) + One(Popping(s'.threads[step.t]))
  }

  lemma AdvanceAnswered(s: State, t: Tid)
    requires Enabled(s, Advance(t)) && t in AdvanceThread(s, t).threads
    ensures Answered(s, Advance(t), AdvanceThread(s, t))
  {
  }

  lemma AskedAlone(s: State, step: Step)
    requires Enabled(s, step) && step.t in Apply(s, step).threads
    ensures Answered(s, step, Apply(s, step))
  {
    if step.Advance? {
      AdvanceAnswered(s, step.t);
    }
  }

  lemma AskedStep(s: State, step: Step)
    requires Enabled(s, step)
    ensures One(Asks(step)) + |Seekers(s)| + |s.popped| ==
            |Apply(s, step).popped| + One(GoesWithout(s, step)) + |Seekers(Apply(s, step))|
  {
    SeekersAfter(s, step);
    AskedAlone(s, step);
    OneElement(Seekers(s), step.t, Popping(Apply(s, step).threads[step.t]));
    assert step.t in Seekers(s) <==> Popping(s.threads[step.t]);
  }

  function Asked(steps: seq<Step>): nat {
    if steps == [] then 0 else One(Asks(steps[0])) + Asked(steps[1..])
  }

  function WentWithout(s: State, steps: seq<Step>): nat
    decreases |steps|
  {
    if steps == [] || !Enabled(s, steps[0]) then 0
    else One(GoesWithout(s, steps[0])) + WentWithout(Apply(s, steps[0]), steps[1..])
  }

  /** In every interleaving each request took one element, went without for a reason, or is under way. */
  lemma {:induction false} RequestsAreAccountedFor(s: State, steps: seq<Step>, end: State)
    requires Execution(s, steps, end)
    ensures Asked(steps) + |Seekers(s)| + |s.popped| == |end.popped| + WentWithout(s, steps) + |Seekers(end)|
    decreases |steps|
  {
    if steps != [] {
      AskedStep(s, steps[0]);
      RequestsAreAccountedFor(Apply(s, steps[0]), steps[1..], end);
    }
  }
}
