/**
The bounded blocking queue of src/data/queue.tpp as a state machine.

Every thread has a program counter.  A step is one action that the C++ memory
model lets other threads observe: taking or releasing the mutex, testing the
wait predicate, going to sleep on a condition variable, appending, removing,
notifying, or touching the atomic stop flag.  Testing the predicate and falling
asleep are two steps, because `stop` writes its flag without the mutex and can
run between them.
*/
module BlockingQueue {
  import opened Wrappers

  type Tid = nat

  /** What the queue carries; nothing depends on it. */
  type Elem(!new)

  datatype PC =
    | Idle
      // push
    | PushLock(value: Elem, guarded: bool)   // wants the mutex
    | PushTest(value: Elem, guarded: bool)   // holds it, about to test the predicate
    | PushSleep(value: Elem, guarded: bool)  // predicate was false, about to release and sleep
    | PushWait(value: Elem, guarded: bool)   // asleep, not notified
    | PushWoken(value: Elem, guarded: bool)  // notified, wants the mutex back
    | PushBody(value: Elem, guarded: bool)   // predicate was true, about to re-read the stop flag
    | PushNotify                          // element stored, about to notify a consumer
    | PushExit                            // about to release the mutex
      // the producer's `if (!full()) push(v)`
    | FullLock(value: Elem)
    | FullTest(value: Elem)
      // pop: wait, release, then tryPop
    | PopLock
    | PopTest
    | PopSleep
    | PopWait
    | PopWoken
    | PopPass
      // tryPop, called directly or as the second half of pop
    | TryLock(viaPop: bool)
    | TryBody(viaPop: bool)
    | TryNotify
    | TryExit
      // stop: flag already written, notifications still to send
    | StopConsumers
    | StopProducers

  datatype State = State(
    queue: seq<Elem>,
    capacity: nat,
    stopped: bool,
    owner: Option<Tid>,
    threads: map<Tid, PC>,
    accepted: seq<Elem>,  // history: elements stored, in order
    popped: seq<Elem>     // history: elements removed, in order
  )

  datatype Step =
    | CallPush(t: Tid, v: Elem)
    | CallProduce(t: Tid, v: Elem)
    | CallPop(t: Tid)
    | CallTryPop(t: Tid)
    | CallStart(t: Tid)
    | CallStop(t: Tid)
    | Advance(t: Tid)                       // the next internal action of t
    | Notify(t: Tid, target: Option<Tid>)   // notify_one, with the sleeper it happens to pick
    | Spurious(t: Tid)                      // a wait returns without notification

  predicate Holds(pc: PC) {
    pc.PushTest? || pc.PushSleep? || pc.PushBody? || pc.PushNotify? || pc.PushExit? || pc.FullTest? ||
    pc.PopTest? || pc.PopSleep? || pc.PopPass? || pc.TryBody? || pc.TryNotify? || pc.TryExit?
  }

  predicate WantsLock(pc: PC) {
    pc.PushLock? || pc.PushWoken? || pc.FullLock? || pc.PopLock? || pc.PopWoken? || pc.TryLock?
  }

  predicate Enabled(s: State, step: Step) {
    step.t in s.threads &&
    var pc := s.threads[step.t];
    match step
    case Advance(_) =>
      if WantsLock(pc) then s.owner.None?
      else !pc.Idle? && !pc.PushWait? && !pc.PopWait? && !pc.PushNotify? && !pc.TryNotify?
    case Notify(_, target) =>
      (pc.PushNotify? || pc.TryNotify?) &&
      match target {
        case Some(u) => u in s.threads && Sleeper(pc, s.threads[u])
        case None => forall u | u in s.threads :: !Sleeper(pc, s.threads[u])
      }
    case Spurious(_) => pc.PushWait? || pc.PopWait?
    case _ => pc.Idle?
  }

  /** `who` sleeps on the condition variable that a notifier at `pc` signals. */
  predicate Sleeper(pc: PC, who: PC) {
    if pc.PushNotify? then who.PopWait? else who.PushWait?
  }

  function Wake(pc: PC): PC {
    match pc
    case PushWait(v, g) => PushWoken(v, g)
    case PopWait => PopWoken
    case _ => pc
  }

  function Goto(s: State, t: Tid, pc: PC): State {
    s.(threads := s.threads[t := pc])
  }

  function Acquire(s: State, t: Tid, pc: PC): State {
    Goto(s, t, pc).(owner := Some(t))
  }

  function Release(s: State, t: Tid, pc: PC): State {
    Goto(s, t, pc).(owner := None)
  }

  function Apply(s: State, step: Step): State
    requires Enabled(s, step)
  {
    var t := step.t;
    match step
    case CallPush(_, v) => Goto(s, t, PushLock(v, false))
    case CallProduce(_, v) => Goto(s, t, FullLock(v))
    case CallPop(_) => Goto(s, t, PopLock)
    case CallTryPop(_) => Goto(s, t, TryLock(false))
    case CallStart(_) => s.(stopped := false)
    case CallStop(_) => Goto(s, t, StopConsumers).(stopped := true)
    case Spurious(_) => Goto(s, t, Wake(s.threads[t]))
    case Notify(_, target) =>
      var s1 := Goto(s, t, if s.threads[t].PushNotify? then PushExit else TryExit);
      (match target
       case Some(u) => Goto(s1, u, Wake(s.threads[u]))
       case None => s1)
    case Advance(_) => AdvanceThread(s, t)
  }

  /** Inside `push`, or inside the `full` that guards it. */
  predicate Producing(pc: PC) {
    pc.PushLock? || pc.PushTest? || pc.PushSleep? || pc.PushWait? || pc.PushWoken? || pc.PushBody? ||
    pc.PushNotify? || pc.PushExit? || pc.FullLock? || pc.FullTest?
  }

  /** Inside `pop` or `tryPop`, before an element is taken. */
  predicate Popping(pc: PC) {
    || pc.PopLock? || pc.PopTest? || pc.PopSleep? || pc.PopWait? || pc.PopWoken? || pc.PopPass?
    || pc.TryLock? || pc.TryBody?
  }

  predicate Stopping(pc: PC) {
    pc.StopConsumers? || pc.StopProducers?
  }

  function AdvanceThread(s: State, t: Tid): State
    requires Enabled(s, Advance(t))
  {
    if Producing(s.threads[t]) then AdvancePush(s, t)
    else if Stopping(s.threads[t]) then AdvanceStop(s, t)
    else AdvancePop(s, t)
  }

  function AdvancePush(s: State, t: Tid): State
    requires t in s.threads
  {
    match s.threads[t]
    case PushLock(v, g) => Acquire(s, t, PushTest(v, g))
    case PushWoken(v, g) => Acquire(s, t, PushTest(v, g))
    case PushTest(v, g) =>
      Goto(s, t, if |s.queue| < s.capacity || s.stopped then PushBody(v, g) else PushSleep(v, g))
    case PushSleep(v, g) => Release(s, t, PushWait(v, g))
    case PushBody(v, g) =>
      if s.stopped then Release(s, t, Idle)
      else Goto(s, t, PushNotify).(queue := s.queue + [v], accepted := s.accepted + [v])
    case PushExit => Release(s, t, Idle)
    case FullLock(v) => Acquire(s, t, FullTest(v))
    case FullTest(v) => Release(s, t, if |s.queue| >= s.capacity then Idle else PushLock(v, true))
    case _ => s
  }

  function AdvancePop(s: State, t: Tid): State
    requires t in s.threads
  {
    match s.threads[t]
    case PopLock => Acquire(s, t, PopTest)
    case PopWoken => Acquire(s, t, PopTest)
    case PopTest => Goto(s, t, if s.queue != [] || s.stopped then PopPass else PopSleep)
    case PopSleep => Release(s, t, PopWait)
    case PopPass => Release(s, t, TryLock(true))
    case TryLock(via) => Acquire(s, t, TryBody(via))
    case TryBody(_) =>
      if s.stopped || s.queue == [] then Release(s, t, Idle)
      else Goto(s, t, TryNotify).(queue := s.queue[1..], popped := s.popped + [s.queue[0]])
    case TryExit => Release(s, t, Idle)
    case _ => s
  }

  function AdvanceStop(s: State, t: Tid): State
    requires t in s.threads
  {
    match s.threads[t]
    case StopConsumers => s.(threads := WakeAll(s.threads, true)[t := StopProducers])
    case StopProducers => s.(threads := WakeAll(s.threads, false)[t := Idle])
    case _ => s
  }

  /** notify_all on `cond_not_empty_` (consumers) or `cond_not_full_` (producers). */
  function WakeAll(threads: map<Tid, PC>, consumers: bool): map<Tid, PC> {
    map u | u in threads ::
      if (if consumers then threads[u].PopWait? else threads[u].PushWait?) then Wake(threads[u]) else threads[u]
  }

  predicate Initial(s: State) {
    s.queue == [] && !s.stopped && s.owner.None? && s.accepted == [] && s.popped == [] &&
    forall t | t in s.threads :: s.threads[t].Idle?
  }

  /** `end` is reached from `s` by performing `steps` in order, whatever the interleaving. */
  ghost predicate Execution(s: State, steps: seq<Step>, end: State)
    decreases |steps|
  {
    if steps == [] then end == s
    else Enabled(s, steps[0]) && Execution(Apply(s, steps[0]), steps[1..], end)
  }

  // ---------------------------------------------------------------- mutual exclusion

  /** The thread recorded as owner is the only one inside a critical section. */
  ghost predicate MutexInv(s: State) {
    MutexOk(s.owner, s.threads)
  }

  ghost predicate MutexOk(owner: Option<Tid>, threads: map<Tid, PC>) {
    && (owner.Some? ==> owner.value in threads)
    && forall t | t in threads :: Holds(threads[t]) <==> owner == Some(t)
  }

  lemma MutexMove(owner: Option<Tid>, threads: map<Tid, PC>, t: Tid, pc: PC)
    requires MutexOk(owner, threads) && t in threads
    ensures Holds(pc) == Holds(threads[t]) ==> MutexOk(owner, threads[t := pc])
    ensures Holds(pc) && owner.None? ==> MutexOk(Some(t), threads[t := pc])
    ensures !Holds(pc) && Holds(threads[t]) ==> MutexOk(None, threads[t := pc])
  {
  }

  lemma MutexPush(s: State, t: Tid)
    requires MutexInv(s) && Enabled(s, Advance(t)) && Producing(s.threads[t])
    ensures MutexInv(AdvancePush(s, t))
  {
    MutexMove(s.owner, s.threads, t, AdvancePush(s, t).threads[t]);
  }

  lemma MutexPop(s: State, t: Tid)
    requires MutexInv(s) && Enabled(s, Advance(t)) && !Producing(s.threads[t]) && !Stopping(s.threads[t])
    ensures MutexInv(AdvancePop(s, t))
  {
    MutexMove(s.owner, s.threads, t, AdvancePop(s, t).threads[t]);
  }

  lemma MutexStop(s: State, t: Tid)
    requires MutexInv(s) && Enabled(s, Advance(t)) && Stopping(s.threads[t])
    ensures MutexInv(AdvanceStop(s, t))
  {
    MutexMove(s.owner, WakeAll(s.threads, s.threads[t].StopConsumers?), t, AdvanceStop(s, t).threads[t]);
  }

  lemma MutexAdvance(s: State, t: Tid)
    requires MutexInv(s) && Enabled(s, Advance(t))
    ensures MutexInv(AdvanceThread(s, t))
  {
    if Producing(s.threads[t]) {
      MutexPush(s, t);
    } else if Stopping(s.threads[t]) {
      MutexStop(s, t);
    } else {
      MutexPop(s, t);
    }
  }

  lemma MutexStep(s: State, step: Step)
    requires MutexInv(s) && Enabled(s, step)
    ensures MutexInv(Apply(s, step))
  {
    if step.Advance? {
      MutexAdvance(s, step.t);
    } else if step.Notify? && step.target.Some? {
      var pc := if s.threads[step.t].PushNotify? then PushExit else TryExit;
      MutexMove(s.owner, s.threads, step.t, pc);
      MutexMove(s.owner, s.threads[step.t := pc], step.target.value, Wake(s.threads[step.target.value]));
    } else if !step.CallStart? {
      MutexMove(s.owner, s.threads, step.t, Apply(s, step).threads[step.t]);
    }
  }

  // ---------------------------------------------------------------- conservation and order

  ghost predicate History(s: State) {
    s.accepted == s.popped + s.queue
  }

  lemma HistoryStep(s: State, step: Step)
    requires History(s) && Enabled(s, step)
    ensures History(Apply(s, step))
  {
    if step.Advance? && s.threads[step.t].TryBody? && !s.stopped && s.queue != [] {
      assert s.queue == [s.queue[0]] + s.queue[1..];
    }
  }

  /** In every interleaving, stops and starts included, elements leave in the order they were accepted. */
  lemma {:induction false} FifoConservation(s: State, steps: seq<Step>, end: State)
    requires History(s) && MutexInv(s) && Execution(s, steps, end)
    ensures end.accepted == end.popped + end.queue
    ensures MutexInv(end)
    decreases |steps|
  {
    if steps != [] {
      HistoryStep(s, steps[0]);
      MutexStep(s, steps[0]);
      FifoConservation(Apply(s, steps[0]), steps[1..], end);
    }
  }

  // ---------------------------------------------------------------- no lost wake-up

  ghost predicate StopFree(steps: seq<Step>) {
    forall i | 0 <= i < |steps| :: !steps[i].CallStop?
  }

  /** A consumer notified or past its wait but not yet in its removal, or a notification still to be sent. */
  predicate ConsumerToken(pc: PC) {
    pc.PopWoken? || pc.PopTest? || pc.PopPass? || (pc.TryLock? && pc.viaPop) || (pc.TryBody? && pc.viaPop) ||
    pc.PushNotify?
  }

  /** A producer notified or past its wait but not yet storing, or a notification still to be sent. */
  predicate ProducerToken(pc: PC) {
    pc.PushWoken? || pc.PushTest? || pc.PushBody? || pc.TryNotify?
  }

  ghost function ConsumerTokens(threads: map<Tid, PC>): set<Tid> {
    set t | t in threads && ConsumerToken(threads[t])
  }

  ghost function ProducerTokens(threads: map<Tid, PC>): set<Tid> {
    set t | t in threads && ProducerToken(threads[t])
  }

  ghost predicate ConsumerAsleep(threads: map<Tid, PC>) {
    exists t :: t in threads && threads[t].PopWait?
  }

  ghost predicate ProducerAsleep(threads: map<Tid, PC>) {
    exists t :: t in threads && threads[t].PushWait?
  }

  lemma TokensMove(threads: map<Tid, PC>, t: Tid, pc: PC)
    requires t in threads
    ensures ConsumerTokens(threads[t := pc]) ==
            if ConsumerToken(pc) then ConsumerTokens(threads) + {t} else ConsumerTokens(threads) - {t}
    ensures ProducerTokens(threads[t := pc]) ==
            if ProducerToken(pc) then ProducerTokens(threads) + {t} else ProducerTokens(threads) - {t}
    ensures ConsumerAsleep(threads[t := pc]) ==> ConsumerAsleep(threads) || pc.PopWait?
    ensures ProducerAsleep(threads[t := pc]) ==> ProducerAsleep(threads) || pc.PushWait?
  {
  }

  /** What each critical section knows about the queue while no stop is in progress. */
  ghost predicate SectionInv(s: State) {
    && !s.stopped && |s.queue| <= s.capacity
    && forall t | t in s.threads ::
         && !s.threads[t].StopConsumers? && !s.threads[t].StopProducers?
         && (s.threads[t].PopSleep? ==> s.queue == [])
         && (s.threads[t].PushSleep? ==> |s.queue| >= s.capacity)
         && (s.threads[t].PushBody? ==> |s.queue| < s.capacity)
  }

  /** Sleeping consumers imply enough wake-ups under way for the queue; same for producers and free slots. */
  ghost predicate CountInv(threads: map<Tid, PC>, size: nat, capacity: nat) {
    && (ConsumerAsleep(threads) ==> size <= |ConsumerTokens(threads)|)
    && (ProducerAsleep(threads) ==> capacity - size <= |ProducerTokens(threads)|)
  }

  ghost predicate WakeInv(s: State) {
    MutexInv(s) && SectionInv(s) && CountInv(s.threads, |s.queue|, s.capacity)
  }

  function One(b: bool): nat {
    if b then 1 else 0
  }

  /** One thread moves and the queue changes size: the balance that keeps the counting invariant. */
  lemma CountMove(threads: map<Tid, PC>, t: Tid, pc: PC, size: nat, size': nat, capacity: nat)
    requires CountInv(threads, size, capacity) && t in threads
    requires size' == 0 || (!pc.PopWait? && size' - One(ConsumerToken(pc)) <= size - One(ConsumerToken(threads[t])))
    requires size' >= capacity ||
             (!pc.PushWait? && size + One(ProducerToken(threads[t])) <= size' + One(ProducerToken(pc)))
    ensures CountInv(threads[t := pc], size', capacity)
  {
    TokensMove(threads, t, pc);
    OneElement(ConsumerTokens(threads), t, ConsumerToken(pc));
    OneElement(ProducerTokens(threads), t, ProducerToken(pc));
    assert t in ConsumerTokens(threads) <==> ConsumerToken(threads[t]);
    assert t in ProducerTokens(threads) <==> ProducerToken(threads[t]);
  }

  lemma OneElement(s: set<Tid>, t: Tid, present: bool)
    ensures |if present then s + {t} else s - {t}| == |s| - One(t in s) + One(present)
  {
    var rest := s - {t};
    assert rest + {t} == s + {t};
    assert |rest + {t}| == |rest| + 1;
    assert if t in s then s == rest + {t} else s == rest;
  }

  lemma SectionAdvance(s: State, t: Tid)
    requires MutexInv(s) && SectionInv(s) && Enabled(s, Advance(t))
    ensures SectionInv(AdvanceThread(s, t))
  {
    var pc := s.threads[t];
    forall u | u in s.threads && u != t && Holds(s.threads[u]) ensures !Holds(pc) {
    }
  }

  lemma WakeAdvance(s: State, t: Tid)
    requires WakeInv(s) && Enabled(s, Advance(t))
    ensures CountInv(AdvanceThread(s, t).threads, |AdvanceThread(s, t).queue|, s.capacity)
  {
    CountMove(s.threads, t, AdvanceThread(s, t).threads[t], |s.queue|, |AdvanceThread(s, t).queue|, s.capacity);
  }

  lemma SwapMembership(c: set<Tid>, t: Tid, u: Tid)
    requires t != u
    ensures var d := if u in c then c + {t} else c - {t};
            |if t in c then d + {u} else d - {u}| == |c|
  {
    var d := if u in c then c + {t} else c - {t};
    assert u in d <==> u in c;
    assert |d| == |c| + One(u in c) - One(t in c);
  }

  /** The notification is handed from the notifier to the sleeper it wakes: the balance does not change. */
  lemma HandOver(threads: map<Tid, PC>, t: Tid, pc: PC, u: Tid, pc': PC)
    requires t in threads && u in threads && t != u
    requires ConsumerToken(threads[t]) == ConsumerToken(pc') && ProducerToken(threads[t]) == ProducerToken(pc')
    requires ConsumerToken(threads[u]) == ConsumerToken(pc) && ProducerToken(threads[u]) == ProducerToken(pc)
    ensures |ConsumerTokens(threads[t := pc][u := pc'])| == |ConsumerTokens(threads)|
    ensures |ProducerTokens(threads[t := pc][u := pc'])| == |ProducerTokens(threads)|
  {
    TokensMove(threads, t, pc);
    TokensMove(threads[t := pc], u, pc');
    SwapMembership(ConsumerTokens(threads), t, u);
    SwapMembership(ProducerTokens(threads), t, u);
  }

  lemma WakeHandOver(threads: map<Tid, PC>, t: Tid, u: Tid, size: nat, capacity: nat)
    requires CountInv(threads, size, capacity) && t in threads && u in threads
    requires (threads[t].PushNotify? && threads[u].PopWait?) || (threads[t].TryNotify? && threads[u].PushWait?)
    ensures CountInv(threads[t := if threads[t].PushNotify? then PushExit else TryExit][u := Wake(threads[u])], size,
                     capacity)
  {
    var pc: PC := if threads[t].PushNotify? then PushExit else TryExit;
    TokensMove(threads, t, pc);
    HandOver(threads, t, pc, u, Wake(threads[u]));
    TokensMove(threads[t := pc], u, Wake(threads[u]));
  }

  lemma WakeNotify(s: State, t: Tid, target: Option<Tid>)
    requires WakeInv(s) && Enabled(s, Notify(t, target))
    ensures CountInv(Apply(s, Notify(t, target)).threads, |s.queue|, s.capacity)
  {
    if target.Some? {
      WakeHandOver(s.threads, t, target.value, |s.queue|, s.capacity);
    } else {
      TokensMove(s.threads, t, if s.threads[t].PushNotify? then PushExit else TryExit);
    }
  }

  /** Calls and spurious wake-ups; a start changes nothing while no stop is in progress. */
  lemma WakeCall(s: State, step: Step)
    requires WakeInv(s) && Enabled(s, step) && !step.CallStop? && !step.Advance? && !step.Notify?
    ensures CountInv(Apply(s, step).threads, |s.queue|, s.capacity) && SectionInv(Apply(s, step))
  {
    if !step.CallStart? {
      CountMove(s.threads, step.t, Apply(s, step).threads[step.t], |s.queue|, |s.queue|, s.capacity);
    }
  }

  lemma WakeStep(s: State, step: Step)
    requires WakeInv(s) && Enabled(s, step) && !step.CallStop?
    ensures WakeInv(Apply(s, step))
  {
    MutexStep(s, step);
    if step.Advance? {
      SectionAdvance(s, step.t);
      WakeAdvance(s, step.t);
    } else if step.Notify? {
      WakeNotify(s, step.t, step.target);
    } else {
      WakeCall(s, step);
    }
  }

  lemma InitialWake(s: State)
    requires Initial(s)
    ensures WakeInv(s) && History(s)
  {
  }

  lemma {:induction false} WakeRun(s: State, steps: seq<Step>, end: State)
    requires WakeInv(s) && StopFree(steps) && Execution(s, steps, end)
    ensures WakeInv(end)
    decreases |steps|
  {
    if steps != [] {
      WakeStep(s, steps[0]);
      WakeRun(Apply(s, steps[0]), steps[1..], end);
    }
  }

  /**
  No lost wake-up: without stops, whenever a consumer sleeps un-notified, every queued element is already
  spoken for by a consumer on its way or by a notification about to be sent; likewise for free slots.
  */
  lemma NoLostWakeup(s: State, steps: seq<Step>, end: State)
    requires Initial(s) && StopFree(steps) && Execution(s, steps, end)
    ensures |end.queue| <= end.capacity
    ensures ConsumerAsleep(end.threads) ==> |end.queue| <= |ConsumerTokens(end.threads)|
    ensures ProducerAsleep(end.threads) ==> end.capacity - |end.queue| <= |ProducerTokens(end.threads)|
  {
    InitialWake(s);
    WakeRun(s, steps, end);
  }

  /** No thread can move without a new call, a stop or a spurious wake-up. */
  ghost predicate Quiescent(s: State) {
    (forall t :: !Enabled(s, Advance(t))) && forall t, target :: !Enabled(s, Notify(t, target))
  }

  lemma QuiescentHolder(s: State, t: Tid)
    requires Quiescent(s) && t in s.threads
    ensures !Holds(s.threads[t])
  {
    var pc := s.threads[t];
    assert !Enabled(s, Advance(t));
    if pc.PushNotify? || pc.TryNotify? {
      if u :| u in s.threads && Sleeper(pc, s.threads[u]) {
        assert Enabled(s, Notify(t, Some(u)));
      } else {
        assert Enabled(s, Notify(t, None));
      }
    }
  }

  lemma QuiescentThread(s: State, t: Tid)
    requires WakeInv(s) && Quiescent(s) && t in s.threads
    ensures s.threads[t].Idle? || s.threads[t].PushWait? || s.threads[t].PopWait?
  {
    assert !Enabled(s, Advance(t));
    QuiescentHolder(s, t);
    if WantsLock(s.threads[t]) {
      QuiescentHolder(s, s.owner.value);
    }
  }

  /**
  A stop-free run can come to rest only with every thread between calls or asleep: with a consumer asleep only when
  the queue is empty, and with a producer asleep only when it is full; so with room for one element producers and
  consumers never block each other.
  */
  lemma RestMeansNothingToDo(s: State, steps: seq<Step>, end: State)
    requires Initial(s) && StopFree(steps) && Execution(s, steps, end) && Quiescent(end)
    ensures forall t | t in end.threads ::
              end.threads[t].Idle? || end.threads[t].PushWait? || end.threads[t].PopWait?
    ensures ConsumerAsleep(end.threads) ==> end.queue == []
    ensures ProducerAsleep(end.threads) ==> |end.queue| == end.capacity
    ensures end.capacity >= 1 ==> !(ConsumerAsleep(end.threads) && ProducerAsleep(end.threads))
  {
    InitialWake(s);
    WakeRun(s, steps, end);
    forall t | t in end.threads
      ensures end.threads[t].Idle? || end.threads[t].PushWait? || end.threads[t].PopWait?
    {
      QuiescentThread(end, t);
    }
    assert ConsumerTokens(end.threads) == {} && ProducerTokens(end.threads) == {};
  }

  // ---------------------------------------------------------------- capacity across stop and start

  /** A producer past its predicate has room, or saw the stop flag and will leave without storing. */
  ghost predicate CapacityInv(s: State) {
    && MutexInv(s) && |s.queue| <= s.capacity
    && forall t | t in s.threads && s.threads[t].PushBody? :: |s.queue| < s.capacity || s.stopped
  }

  /** No producer that was let through by the stop flag alone is about to re-read it. */
  ghost predicate StartIsSafe(s: State) {
    forall t | t in s.threads && s.threads[t].PushBody? :: |s.queue| < s.capacity
  }

  ghost predicate StartsAreSafe(s: State, steps: seq<Step>)
    decreases |steps|
  {
    steps != [] && Enabled(s, steps[0]) ==>
      (steps[0].CallStart? ==> StartIsSafe(s)) && StartsAreSafe(Apply(s, steps[0]), steps[1..])
  }

  lemma CapacityStep(s: State, step: Step)
    requires CapacityInv(s) && Enabled(s, step) && (step.CallStart? ==> StartIsSafe(s))
    ensures CapacityInv(Apply(s, step))
  {
    MutexStep(s, step);
    var s' := Apply(s, step);
    if step.Advance? && s'.queue != s.queue {
      forall u | u in s.threads && u != step.t ensures !Holds(s.threads[u]) {
      }
    }
  }

  /** The queue never outgrows its capacity, over stops and over every start made at a safe moment. */
  lemma {:induction false} CapacityRespected(s: State, steps: seq<Step>, end: State)
    requires CapacityInv(s) && Execution(s, steps, end) && StartsAreSafe(s, steps)
    ensures CapacityInv(end)
    decreases |steps|
  {
    if steps != [] {
      CapacityStep(s, steps[0]);
      CapacityRespected(Apply(s, steps[0]), steps[1..], end);
    }
  }

  /** Exactly the unsafe starts break the bound: one more action of the waiting producer then overfills. */
  lemma StartOverfillsExactlyWhenUnsafe(s: State, u: Tid)
    requires CapacityInv(s) && Enabled(s, CallStart(u))
    ensures StartIsSafe(s) <==>
            forall t | Enabled(Apply(s, CallStart(u)), Advance(t)) ::
              |AdvanceThread(Apply(s, CallStart(u)), t).queue| <= s.capacity
  {
    var s1 := Apply(s, CallStart(u));
    if !StartIsSafe(s) {
      var t :| t in s.threads && s.threads[t].PushBody? && |s.queue| >= s.capacity;
      assert Enabled(s1, Advance(t));
      assert |AdvanceThread(s1, t).queue| == |s.queue| + 1;
    }
  }

  // ---------------------------------------------------------------- the guarded single producer

  ghost predicate OnlyProducer(steps: seq<Step>, p: Tid) {
    forall i | 0 <= i < |steps| :: !steps[i].CallPush? && (steps[i].CallProduce? ==> steps[i].t == p)
  }

  /** What a thread at `pc` must satisfy when `p` is the only producer and always asks `full` first. */
  predicate ProducerOk(pc: PC, t: Tid, p: Tid, size: nat, capacity: nat) {
    Producing(pc) ==>
      && t == p && !pc.PushSleep? && !pc.PushWait? && !pc.PushWoken?
      && (pc.PushLock? || pc.PushTest? || pc.PushBody? ==> size < capacity)
  }

  ghost predicate SoleProducerInv(s: State, p: Tid) {
    && MutexInv(s) && |s.queue| <= s.capacity
    && forall t | t in s.threads :: ProducerOk(s.threads[t], t, p, |s.queue|, s.capacity)
  }

  lemma SoleProducerSelf(s: State, t: Tid, p: Tid)
    requires SoleProducerInv(s, p) && Enabled(s, Advance(t))
    ensures ProducerOk(AdvanceThread(s, t).threads[t], t, p, |AdvanceThread(s, t).queue|, s.capacity)
    ensures |AdvanceThread(s, t).queue| <= s.capacity
    ensures |AdvanceThread(s, t).queue| > |s.queue| ==> s.threads[t].PushBody?
  {
    assert ProducerOk(s.threads[t], t, p, |s.queue|, s.capacity);
  }

  /** Advancing one thread leaves the others where they are, but for those a stop wakes up. */
  lemma OthersStay(s: State, t: Tid, u: Tid)
    requires Enabled(s, Advance(t)) && u in s.threads && u != t
    ensures u in AdvanceThread(s, t).threads
    ensures AdvanceThread(s, t).threads[u] == s.threads[u] || AdvanceThread(s, t).threads[u] == Wake(s.threads[u])
  {
  }

  lemma SoleProducerAdvance(s: State, t: Tid, p: Tid)
    requires SoleProducerInv(s, p) && Enabled(s, Advance(t))
    ensures forall u | u in s.threads && u in AdvanceThread(s, t).threads ::
              ProducerOk(AdvanceThread(s, t).threads[u], u, p, |AdvanceThread(s, t).queue|, s.capacity)
  {
    SoleProducerSelf(s, t, p);
    forall u | u in s.threads && u != t && u in AdvanceThread(s, t).threads
      ensures ProducerOk(AdvanceThread(s, t).threads[u], u, p, |AdvanceThread(s, t).queue|, s.capacity)
    {
      OthersStay(s, t, u);
      SoleProducerOther(s, t, u, p, AdvanceThread(s, t).threads[u], |AdvanceThread(s, t).queue|);
    }
  }

  lemma SoleProducerOther(s: State, t: Tid, u: Tid, p: Tid, pc: PC, size: nat)
    requires SoleProducerInv(s, p) && t in s.threads && u in s.threads && u != t
    requires pc == s.threads[u] || pc == Wake(s.threads[u])
    requires size > |s.queue| ==> s.threads[t].PushBody?
    ensures ProducerOk(pc, u, p, size, s.capacity)
  {
    assert ProducerOk(s.threads[u], u, p, |s.queue|, s.capacity);
    assert ProducerOk(s.threads[t], t, p, |s.queue|, s.capacity);
  }

  lemma ThreadsKept(s: State, step: Step)
    requires Enabled(s, step)
    ensures Apply(s, step).threads.Keys == s.threads.Keys
  {
  }

  lemma SoleProducerCall(s: State, step: Step, p: Tid)
    requires SoleProducerInv(s, p) && Enabled(s, step) && !step.Advance?
    requires !step.CallPush? && (step.CallProduce? ==> step.t == p)
    ensures forall u | u in s.threads && u in Apply(s, step).threads ::
              ProducerOk(Apply(s, step).threads[u], u, p, |s.queue|, s.capacity)
  {
    assert ProducerOk(s.threads[step.t], step.t, p, |s.queue|, s.capacity);
  }

  lemma SoleProducerStep(s: State, step: Step, p: Tid)
    requires SoleProducerInv(s, p) && Enabled(s, step)
    requires !step.CallPush? && (step.CallProduce? ==> step.t == p)
    ensures SoleProducerInv(Apply(s, step), p)
  {
    MutexStep(s, step);
    ThreadsKept(s, step);
    if step.Advance? {
      SoleProducerSelf(s, step.t, p);
      SoleProducerAdvance(s, step.t, p);
    } else {
      SoleProducerCall(s, step, p);
    }
  }

  /**
  With one producing thread whose pushes are guarded by `!full()`, no push ever waits and the capacity holds,
  whatever the stops, the starts and the consumers do.
  */
  lemma {:induction false} GuardedProducerNeverWaits(s: State, steps: seq<Step>, end: State, p: Tid)
    requires SoleProducerInv(s, p) && OnlyProducer(steps, p) && Execution(s, steps, end)
    ensures SoleProducerInv(end, p)
    ensures !ProducerAsleep(end.threads) && |end.queue| <= end.capacity
    decreases |steps|
  {
    if steps != [] {
      SoleProducerStep(s, steps[0], p);
      GuardedProducerNeverWaits(Apply(s, steps[0]), steps[1..], end, p);
    }
  }

  // ---------------------------------------------------------------- whom a stop reaches

  ghost predicate StartFree(steps: seq<Step>) {
    forall i | 0 <= i < |steps| :: !steps[i].CallStart?
  }

  /** On the consumers' side of the queue, or on the producers': tested in vain, not asleep yet. */
  predicate FallingAsleep(pc: PC, consumers: bool) {
    if consumers then pc.PopSleep? else pc.PushSleep?
  }

  predicate Asleep(pc: PC, consumers: bool) {
    if consumers then pc.PopWait? else pc.PushWait?
  }

  /** About to send the notifications of a stop to that side. */
  predicate Notifying(pc: PC, consumers: bool) {
    if consumers then pc.StopConsumers? else pc.StopProducers?
  }

  /** The flag is up and that side is awake. */
  ghost predicate AllAwake(s: State, consumers: bool) {
    s.stopped
    && forall u | u in s.threads :: !FallingAsleep(s.threads[u], consumers) && !Asleep(s.threads[u], consumers)
  }

  /** Where one step takes the thread that makes it, while the flag is up. */
  lemma AwakeSelf(s: State, t: Tid, consumers: bool)
    requires AllAwake(s, consumers) && Enabled(s, Advance(t))
    ensures var s' := AdvanceThread(s, t);
            s'.stopped && !FallingAsleep(s'.threads[t], consumers) && !Asleep(s'.threads[t], consumers)
  {
    assert !FallingAsleep(s.threads[t], consumers);
  }

  lemma AwakeStep(s: State, step: Step, consumers: bool)
    requires AllAwake(s, consumers) && Enabled(s, step) && !step.CallStart?
    ensures AllAwake(Apply(s, step), consumers)
  {
    ThreadsKept(s, step);
    if step.Advance? {
      AwakeSelf(s, step.t, consumers);
      forall u | u in s.threads && u != step.t
        ensures !FallingAsleep(Apply(s, step).threads[u], consumers) && !Asleep(Apply(s, step).threads[u], consumers)
      {
        OthersStay(s, step.t, u);
      }
    }
  }

  lemma {:induction false} AwakeRun(s: State, steps: seq<Step>, end: State, consumers: bool)
    requires AllAwake(s, consumers) && StartFree(steps) && Execution(s, steps, end)
    ensures AllAwake(end, consumers)
    decreases |steps|
  {
    if steps != [] {
      AwakeStep(s, steps[0], consumers);
      AwakeRun(Apply(s, steps[0]), steps[1..], end, consumers);
    }
  }

  /** Nobody of that side sleeps in any state that a run without a start leads to. */
  ghost predicate NobodyLeftAsleep(s: State, consumers: bool) {
    forall steps, end, u | Execution(s, steps, end) && StartFree(steps) && u in end.threads ::
      !Asleep(end.threads[u], consumers)
  }

  /** A thread of that side that is falling asleep does so: nothing in its way tests the flag again. */
  lemma FallsAsleep(s: State, u: Tid, consumers: bool)
    requires u in s.threads && FallingAsleep(s.threads[u], consumers)
    ensures !NobodyLeftAsleep(s, consumers)
  {
    var steps, end := [Advance(u)], Apply(s, Advance(u));
    assert steps[1..] == [];
    assert Execution(end, [], end);
    assert Execution(s, steps, end) && StartFree(steps);
    assert Asleep(end.threads[u], consumers);
  }

  /**
  With any number of threads, the notify_all of a stop reaches its whole side, consumers or producers, for as long
  as no start follows, if and only if none of them is between its test and its sleep when the notifications go out.
  */
  lemma StopReachesExactly(s: State, t: Tid, consumers: bool)
    requires s.stopped && t in s.threads && Notifying(s.threads[t], consumers)
    ensures NobodyLeftAsleep(Apply(s, Advance(t)), consumers) <==>
            forall u | u in s.threads :: !FallingAsleep(s.threads[u], consumers)
  {
    var s1 := Apply(s, Advance(t));
    if u :| u in s.threads && FallingAsleep(s.threads[u], consumers) {
      assert s1.threads[u] == s.threads[u];
      FallsAsleep(s1, u, consumers);
    } else {
      assert AllAwake(s1, consumers);
      forall steps, end | Execution(s1, steps, end) && StartFree(steps) ensures AllAwake(end, consumers) {
        AwakeRun(s1, steps, end, consumers);
      }
    }
  }

  // ---------------------------------------------------------------- two runs the code does allow

  ghost predicate Reaches(s: State, end: State) {
    exists steps :: Execution(s, steps, end)
  }

  lemma {:induction false} ExecutionSnoc(s: State, steps: seq<Step>, mid: State, step: Step)
    requires Execution(s, steps, mid) && Enabled(mid, step)
    ensures Execution(s, steps + [step], Apply(mid, step))
    decreases |steps|
  {
    if steps == [] {
      assert ([] + [step])[1..] == [];
    } else {
      assert (steps + [step])[1..] == steps[1..] + [step];
      ExecutionSnoc(Apply(s, steps[0]), steps[1..], mid, step);
    }
  }

  lemma Then(s: State, mid: State, step: Step, next: State)
    requires Reaches(s, mid) && Enabled(mid, step) && Apply(mid, step) == next
    ensures Reaches(s, next)
  {
    var steps :| Execution(s, steps, mid);
    ExecutionSnoc(s, steps, mid, step);
  }

  function TwoThreads(queue: seq<Elem>, capacity: nat, stopped: bool, owner: Option<Tid>, pc0: PC, pc1: PC): State {
    State(queue, capacity, stopped, owner, map[0 := pc0, 1 := pc1], queue, [])
  }

  lemma Unmoved(s: State)
    ensures Reaches(s, s)
  {
    assert Execution(s, [], s);
  }

  lemma PopReachesTest(c: nat)
    ensures Reaches(TwoThreads([], c, false, None, Idle, Idle), TwoThreads([], c, false, Some(0), PopTest, Idle))
  {
    var s := TwoThreads([], c, false, None, Idle, Idle);
    Unmoved(s);
    Then(s, s, CallPop(0), TwoThreads([], c, false, None, PopLock, Idle));
    Then(s, TwoThreads([], c, false, None, PopLock, Idle), Advance(0),
         TwoThreads([], c, false, Some(0), PopTest, Idle));
  }

  lemma PushReachesTest(q: seq<Elem>, v: Elem)
    ensures Reaches(TwoThreads(q, |q|, false, None, Idle, Idle),
                    TwoThreads(q, |q|, false, Some(0), PushTest(v, false), Idle))
  {
    var s := TwoThreads(q, |q|, false, None, Idle, Idle);
    Unmoved(s);
    Then(s, s, CallPush(0, v), TwoThreads(q, |q|, false, None, PushLock(v, false), Idle));
    Then(s, TwoThreads(q, |q|, false, None, PushLock(v, false), Idle), Advance(0),
         TwoThreads(q, |q|, false, Some(0), PushTest(v, false), Idle));
  }

  /** Thread 0 takes one internal step. */
  lemma Hop(s: State, mid: State, next: State)
    requires Reaches(s, mid) && Enabled(mid, Advance(0)) && AdvanceThread(mid, 0) == next
    ensures Reaches(s, next)
  {
    Then(s, mid, Advance(0), next);
  }

  /** Thread 1 sets the stop flag while thread 0 holds the mutex at `pc`. */
  lemma StopBegins(s: State, q: seq<Elem>, c: nat, pc: PC)
    requires Reaches(s, TwoThreads(q, c, false, Some(0), pc, Idle))
    ensures Reaches(s, TwoThreads(q, c, true, Some(0), pc, StopConsumers))
  {
    Then(s, TwoThreads(q, c, false, Some(0), pc, Idle), CallStop(1),
         TwoThreads(q, c, true, Some(0), pc, StopConsumers));
  }

  lemma StopSignalsConsumers(s: State, q: seq<Elem>, c: nat, pc: PC)
    requires Reaches(s, TwoThreads(q, c, true, Some(0), pc, StopConsumers)) && !pc.PopWait?
    ensures Reaches(s, TwoThreads(q, c, true, Some(0), pc, StopProducers))
  {
    Then(s, TwoThreads(q, c, true, Some(0), pc, StopConsumers), Advance(1),
         TwoThreads(q, c, true, Some(0), pc, StopProducers));
  }

  /** Both notify_all calls of the stop find nobody asleep. */
  lemma StopEnds(s: State, q: seq<Elem>, c: nat, pc: PC)
    requires Reaches(s, TwoThreads(q, c, true, Some(0), pc, StopConsumers)) && Wake(pc) == pc
    ensures Reaches(s, TwoThreads(q, c, true, Some(0), pc, Idle))
  {
    StopSignalsConsumers(s, q, c, pc);
    Then(s, TwoThreads(q, c, true, Some(0), pc, StopProducers), Advance(1), TwoThreads(q, c, true, Some(0), pc, Idle));
  }

  lemma SleepersDoNothing(s: State, t: Tid, target: Option<Tid>)
    requires t in s.threads ==> s.threads[t].PopWait? || s.threads[t].Idle?
    ensures !Enabled(s, Advance(t)) && !Enabled(s, Notify(t, target))
  {
  }

  lemma StrandedIsQuiescent(c: nat)
    ensures Quiescent(TwoThreads([], c, true, None, PopWait, Idle))
  {
    var s := TwoThreads([], c, true, None, PopWait, Idle);
    assert forall t | t in s.threads :: s.threads[t].PopWait? || s.threads[t].Idle?;
    forall t ensures !Enabled(s, Advance(t)) {
      SleepersDoNothing(s, t, None);
    }
    forall t, target ensures !Enabled(s, Notify(t, target)) {
      SleepersDoNothing(s, t, target);
    }
  }

  lemma ConsumerFallsAsleepStopped(s: State, c: nat)
    requires Reaches(s, TwoThreads([], c, true, Some(0), PopSleep, Idle))
    ensures Reaches(s, TwoThreads([], c, true, None, PopWait, Idle))
  {
    Hop(s, TwoThreads([], c, true, Some(0), PopSleep, Idle), TwoThreads([], c, true, None, PopWait, Idle));
  }

  /** `stop` between a consumer's test and its sleep: it sleeps on, flag set, with nothing left to wake it. */
  lemma StopCanStrandAConsumer(c: nat)
    ensures Initial(TwoThreads([], c, false, None, Idle, Idle))
    ensures Reaches(TwoThreads([], c, false, None, Idle, Idle), TwoThreads([], c, true, None, PopWait, Idle))
    ensures Quiescent(TwoThreads([], c, true, None, PopWait, Idle))
  {
    var s := TwoThreads([], c, false, None, Idle, Idle);
    PopReachesTest(c);
    Hop(s, TwoThreads([], c, false, Some(0), PopTest, Idle), TwoThreads([], c, false, Some(0), PopSleep, Idle));
    StopBegins(s, [], c, PopSleep);
    StopEnds(s, [], c, PopSleep);
    ConsumerFallsAsleepStopped(s, c);
    StrandedIsQuiescent(c);
  }

  lemma StopLetsProducerThrough(s: State, q: seq<Elem>, v: Elem)
    requires Reaches(s, TwoThreads(q, |q|, true, Some(0), PushTest(v, false), Idle))
    ensures Reaches(s, TwoThreads(q, |q|, true, Some(0), PushBody(v, false), Idle))
  {
    Hop(s, TwoThreads(q, |q|, true, Some(0), PushTest(v, false), Idle),
        TwoThreads(q, |q|, true, Some(0), PushBody(v, false), Idle));
  }

  lemma StartThenStore(s: State, q: seq<Elem>, v: Elem)
    requires Reaches(s, TwoThreads(q, |q|, true, Some(0), PushBody(v, false), Idle))
    ensures Reaches(s, TwoThreads(q + [v], |q|, false, Some(0), PushNotify, Idle))
  {
    Then(s, TwoThreads(q, |q|, true, Some(0), PushBody(v, false), Idle), CallStart(1),
         TwoThreads(q, |q|, false, Some(0), PushBody(v, false), Idle));
    Hop(s, TwoThreads(q, |q|, false, Some(0), PushBody(v, false), Idle),
        TwoThreads(q + [v], |q|, false, Some(0), PushNotify, Idle));
  }

  /** A start slipping in after a stop let a producer through: the full queue `q` takes one element more. */
  lemma StartCanOverfill(q: seq<Elem>, v: Elem)
    ensures CapacityInv(TwoThreads(q, |q|, false, None, Idle, Idle))
    ensures Reaches(TwoThreads(q, |q|, false, None, Idle, Idle),
                    TwoThreads(q + [v], |q|, false, Some(0), PushNotify, Idle))
  {
    var s := TwoThreads(q, |q|, false, None, Idle, Idle);
    PushReachesTest(q, v);
    StopBegins(s, q, |q|, PushTest(v, false));
    StopEnds(s, q, |q|, PushTest(v, false));
    StopLetsProducerThrough(s, q, v);
    StartThenStore(s, q, v);
  }
}
