/** `AsyncWALShard` as a transition system: any number of producers in `log`, one worker, `flush`
    and the destructor. Code between acquiring and releasing `queue_mutex_` is one step; waiting on a
    condition variable, being notified and waking spuriously are explicit. The write-ahead log is an
    append-only sequence of which a prefix is durable. */
module AsyncWal {
  import opened Batches

  datatype Producer<S> =
    | Idle
    | Entering(series: S)  // about to lock queue_mutex_
    | Asleep(series: S)    // waiting on producer_cv_
    | Woken(series: S)     // notified or woken spuriously, about to lock again
    | Notifying            // pushed and unlocked, about to notify queue_cv_
    | Flushing             // in flush, about to notify queue_cv_
    | Polling              // in flush, looking again and again whether the queue is empty

  datatype Worker<S> =
    | Ready                    // about to lock queue_mutex_
    | Sleeping                 // waiting on queue_cv_
    | Writing(batch: seq<S>)   // what is left to write of the batch; then flush
    | Exited

  datatype Closer = NotStarted | Stopping | Joining | Done

  datatype State<S> = State(
    maxQueue: nat, queue: seq<S>, running: bool,
    producers: seq<Producer<S>>, worker: Worker<S>, closer: Closer,
    written: seq<S>, durable: nat,
    accepted: seq<S>,      // history: the series in lock-acquisition order of log
    acceptedAtExit: nat)   // history: how many had been accepted when the worker exited

  datatype Event<S> =
    | Log(thread: nat, series: S)
    | Lock(thread: nat)
    | Spurious(thread: nat)
    | Notify(thread: nat)
    | WorkerStep
    | WorkerSpurious
    | Flush(thread: nat)
    | FlushNotify(thread: nat)
    | FlushCheck(thread: nat)
    | Close
    | CloserNotify
    | Join

  function Init<S>(maxQueue: nat, threads: nat): State<S> {
    State(maxQueue, [], true, seq(threads, _ => Idle), Ready, NotStarted, [], 0, [], 0)
  }

  function Set<S>(s: State<S>, t: nat, p: Producer<S>): State<S>
    requires t < |s.producers|
  {
    s.(producers := s.producers[t := p])
  }

  function WakeWorker<S>(w: Worker<S>): Worker<S> {
    if w.Sleeping? then Ready else w
  }

  /** producer_cv_.notify_all() */
  function WakeAll<S>(ps: seq<Producer<S>>): seq<Producer<S>> {
    seq(|ps|, i requires 0 <= i < |ps| => if ps[i].Asleep? then Woken(ps[i].series) else ps[i])
  }

  /** The locked part of log: sleep while the queue is full, otherwise push. */
  function LockStep<S>(s: State<S>, t: nat): State<S>
    requires t < |s.producers|
  {
    var p := s.producers[t];
    if !p.Entering? && !p.Woken? then s
    else if |s.queue| >= s.maxQueue then Set(s, t, Asleep(p.series))
    else Set(s, t, Notifying).(queue := s.queue + [p.series], accepted := s.accepted + [p.series])
  }

  function WorkerNext<S>(s: State<S>): State<S> {
    match s.worker
    case Ready =>
      if s.queue == [] && s.running then s.(worker := Sleeping)
      else if s.queue == [] then s.(worker := Exited, acceptedAtExit := |s.accepted|)
      else
        var k := BatchSize(s.queue);
        s.(queue := s.queue[k..], worker := Writing(s.queue[..k]), producers := WakeAll(s.producers))
    case Writing(batch) =>
      if batch == [] then s.(durable := |s.written|, worker := Ready)
      else s.(written := s.written + [batch[0]], worker := Writing(batch[1..]))
    case _ => s
  }

  /** The emptiness check that ends flush. */
  predicate FlushReturns<S>(s: State<S>, t: nat) {
    t < |s.producers| && s.producers[t].Polling? && s.queue == []
  }

  function Step<S>(s: State<S>, e: Event<S>): State<S> {
    match e
    case Log(t, series) => if t < |s.producers| && s.producers[t].Idle? then Set(s, t, Entering(series)) else s
    case Lock(t) => if t < |s.producers| then LockStep(s, t) else s
    case Spurious(t) =>
      if t < |s.producers| && s.producers[t].Asleep? then Set(s, t, Woken(s.producers[t].series)) else s
    case Notify(t) =>
      if t < |s.producers| && s.producers[t].Notifying? then Set(s, t, Idle).(worker := WakeWorker(s.worker)) else s
    case WorkerStep => WorkerNext(s)
    case WorkerSpurious => s.(worker := WakeWorker(s.worker))
    case Flush(t) => if t < |s.producers| && s.producers[t].Idle? then Set(s, t, Flushing) else s
    case FlushNotify(t) =>
      if t < |s.producers| && s.producers[t].Flushing? then Set(s, t, Polling).(worker := WakeWorker(s.worker)) else s
    case FlushCheck(t) => if FlushReturns(s, t) then Set(s, t, Idle) else s
    case Close => if s.closer.NotStarted? then s.(running := false, closer := Stopping) else s
    case CloserNotify => if s.closer.Stopping? then s.(closer := Joining, worker := WakeWorker(s.worker)) else s
    case Join => if s.closer.Joining? && s.worker.Exited? then s.(closer := Done) else s
  }

  function Run<S>(s: State<S>, events: seq<Event<S>>): State<S>
    decreases |events|
  {
    if events == [] then s else Run(Step(s, events[0]), events[1..])
  }

  // ------------------------------------------------------------------- invariant

  function Remaining<S>(s: State<S>): seq<S> {
    if s.worker.Writing? then s.worker.batch else []
  }

  /** Nothing is lost, duplicated or reordered. */
  ghost predicate Conserved<S>(s: State<S>) {
    s.accepted == s.written + Remaining(s) + s.queue
  }

  /** The part of the log that is not durable plus the rest of the batch is one batch at most, and
      exists only while the worker is writing. */
  ghost predicate BatchBounded<S>(s: State<S>) {
    && s.durable <= |s.written|
    && |s.written| - s.durable + |Remaining(s)| <= BATCH_SIZE
    && (s.worker.Writing? <==> |s.written| - s.durable + |Remaining(s)| > 0)
  }

  ghost predicate Sleepers<S>(s: State<S>) {
    && |s.queue| <= s.maxQueue
    && (forall t :: 0 <= t < |s.producers| && s.producers[t].Asleep? ==> |s.queue| >= s.maxQueue)
  }

  ghost predicate PendingNotify<S>(s: State<S>) {
    s.closer.Stopping? || exists t :: 0 <= t < |s.producers| && s.producers[t].Notifying?
  }

  /** No wakeup is lost: a sleeping worker with something to do has a notification on its way. */
  ghost predicate WakeupComing<S>(s: State<S>) {
    s.worker.Sleeping? && (s.queue != [] || !s.running) ==> PendingNotify(s)
  }

  ghost predicate ExitClean<S>(s: State<S>) {
    && (s.running <==> s.closer.NotStarted?)
    && (s.worker.Exited? ==> !s.running && |s.written| == s.acceptedAtExit == s.durable)
    && (s.closer.Done? ==> s.worker.Exited?)
  }

  ghost predicate Inv<S>(s: State<S>) {
    Conserved(s) && BatchBounded(s) && Sleepers(s) && WakeupComing(s) && ExitClean(s)
  }

  lemma LockKeeps<S>(s: State<S>, t: nat)
    requires Inv(s) && t < |s.producers|
    ensures Inv(LockStep(s, t))
  {
    var s' := LockStep(s, t);
    var p := s.producers[t];
    if (p.Entering? || p.Woken?) && |s.queue| < s.maxQueue {
      assert s'.producers[t].Notifying?;
      assert s'.accepted == s.written + Remaining(s) + (s.queue + [p.series]);
    } else if s'.worker.Sleeping? && (s'.queue != [] || !s'.running) && !s.closer.Stopping? {
      var u :| 0 <= u < |s.producers| && s.producers[u].Notifying?;
      assert s'.producers[u].Notifying?;
    }
  }

  lemma WorkerKeeps<S>(s: State<S>)
    requires Inv(s)
    ensures Inv(WorkerNext(s))
  {
    match s.worker
    case Ready => DrainKeeps(s);
    case Writing(_) => WriteKeeps(s);
    case Sleeping =>
    case Exited =>
  }

  lemma DrainKeeps<S>(s: State<S>)
    requires Inv(s) && s.worker.Ready?
    ensures Inv(WorkerNext(s))
  {
    if s.queue != [] {
      var k := BatchSize(s.queue);
      assert s.queue == s.queue[..k] + s.queue[k..];
    }
  }

  lemma WriteKeeps<S>(s: State<S>)
    requires Inv(s) && s.worker.Writing?
    ensures Inv(WorkerNext(s))
  {
    var batch := s.worker.batch;
    if batch != [] {
      assert batch == [batch[0]] + batch[1..];
      assert WorkerNext(s).written + batch[1..] == s.written + batch;
    }
  }

  lemma ProducerMoveKeeps<S>(s: State<S>, t: nat, p: Producer<S>)
    requires Inv(s) && t < |s.producers| && !p.Asleep? && !s.producers[t].Notifying?
    ensures Inv(Set(s, t, p))
  {
    var s' := Set(s, t, p);
    if s.worker.Sleeping? && (s.queue != [] || !s.running) && !s.closer.Stopping? {
      var u :| 0 <= u < |s.producers| && s.producers[u].Notifying?;
      assert s'.producers[u].Notifying?;
    }
  }

  lemma StepKeeps<S>(s: State<S>, e: Event<S>)
    requires Inv(s)
    ensures Inv(Step(s, e))
  {
    match e
    case Log(t, series) =>
      if t < |s.producers| && s.producers[t].Idle? { ProducerMoveKeeps(s, t, Entering(series)); }
    case Lock(t) => if t < |s.producers| { LockKeeps(s, t); }
    case Spurious(t) =>
      if t < |s.producers| && s.producers[t].Asleep? { ProducerMoveKeeps(s, t, Woken(s.producers[t].series)); }
    case WorkerStep => WorkerKeeps(s);
    case Notify(_) =>
    case WorkerSpurious =>
    case Flush(t) => if t < |s.producers| && s.producers[t].Idle? { ProducerMoveKeeps(s, t, Flushing); }
    case FlushNotify(_) =>
    case FlushCheck(t) => if FlushReturns(s, t) { ProducerMoveKeeps(s, t, Idle); }
    case Close =>
    case CloserNotify =>
    case Join =>
  }

  lemma {:induction false} RunKeeps<S>(s: State<S>, events: seq<Event<S>>)
    requires Inv(s)
    ensures Inv(Run(s, events))
    decreases |events|
  {
    if events != [] {
      StepKeeps(s, events[0]);
      RunKeeps(Step(s, events[0]), events[1..]);
    }
  }

  // ------------------------------------------------------------------ main results

  /** Every reachable state conserves the accepted series, keeps both bounds and loses no wakeup. */
  lemma Safety<S>(maxQueue: nat, threads: nat, events: seq<Event<S>>)
    ensures var s := Run(Init<S>(maxQueue, threads), events);
      && Inv(s)
      && s.accepted == s.written + Remaining(s) + s.queue
      && |s.queue| <= maxQueue && |Remaining(s)| <= 1000
  {
    RunKeeps(Init<S>(maxQueue, threads), events);
    RunKeepsMax(Init<S>(maxQueue, threads), events);
  }

  lemma {:induction false} RunKeepsMax<S>(s: State<S>, events: seq<Event<S>>)
    ensures Run(s, events).maxQueue == s.maxQueue && |Run(s, events).producers| == |s.producers|
    decreases |events|
  {
    if events != [] {
      RunKeepsMax(Step(s, events[0]), events[1..]);
    }
  }

  /** A thread in log that takes the lock gets its series accepted, at the end, exactly when there is
      room; otherwise it sleeps; and nothing else accepts a series. */
  lemma AcceptedIff<S>(s: State<S>, e: Event<S>)
    ensures var r := Step(s, e);
      && r.accepted == (if e.Lock? && Admits(s, e.thread) then s.accepted + [s.producers[e.thread].series] else s.accepted)
      && (e.Lock? && e.thread < |s.producers| && (s.producers[e.thread].Entering? || s.producers[e.thread].Woken?) ==>
           if Admits(s, e.thread) then r.producers[e.thread].Notifying? else r.producers[e.thread] == Asleep(s.producers[e.thread].series))
  {
  }

  /** log and flush begin only in an idle thread, log with the series given; the destructor begins once,
      with a stop request, and ends only after the worker. */
  lemma CallsBegin<S>(s: State<S>, t: nat, series: S)
    requires t < |s.producers|
    ensures Step(s, Log(t, series)).producers[t] == if s.producers[t].Idle? then Entering(series) else s.producers[t]
    ensures Step(s, Flush(t)).producers[t] == if s.producers[t].Idle? then Flushing else s.producers[t]
    ensures s.closer.NotStarted? ==> Step(s, Close).closer.Stopping? && !Step(s, Close).running
    ensures Step(s, Join).closer.Done? <==> s.closer.Done? || (s.closer.Joining? && s.worker.Exited?)
  {
  }

  /** A step of the worker puts it to sleep exactly when there is nothing to write and no stop request,
      and ends it exactly when there is nothing to write and one. */
  lemma WorkerDecides<S>(s: State<S>)
    requires !s.worker.Sleeping? && !s.worker.Exited?
    ensures WorkerNext(s).worker.Sleeping? <==> s.worker.Ready? && s.queue == [] && s.running
    ensures WorkerNext(s).worker.Exited? <==> s.worker.Ready? && s.queue == [] && !s.running
  {
  }

  /** A producer that has pushed, a flush and the destructor all wake the worker. */
  lemma NotifyWakes<S>(s: State<S>, e: Event<S>)
    requires (e.Notify? && e.thread < |s.producers| && s.producers[e.thread].Notifying?)
      || (e.FlushNotify? && e.thread < |s.producers| && s.producers[e.thread].Flushing?)
      || (e.CloserNotify? && s.closer.Stopping?)
    ensures !Step(s, e).worker.Sleeping?
  {
  }

  /** Some thread can take a step that is not a spurious wakeup: the worker itself, or a thread that
      is about to notify it. */
  ghost predicate CanProgress<S>(s: State<S>) {
    (!s.worker.Sleeping? && !s.worker.Exited?) || PendingNotify(s)
  }

  /** While the worker lives and the queue has room for at least one series, nobody sleeps forever:
      a sleeping producer, a queued series or a stop request implies progress. */
  lemma NoDeadlock<S>(s: State<S>)
    requires Inv(s) && s.maxQueue >= 1 && !s.worker.Exited?
    requires s.queue != [] || !s.running || exists t :: 0 <= t < |s.producers| && s.producers[t].Asleep?
    ensures CanProgress(s)
  {
  }

  /** From any reachable state with a living worker, a sleeping producer is woken after the worker
      has been notified, has finished its batch and has drained once: no other thread is needed. */
  lemma SleeperIsWoken<S>(s: State<S>, t: nat) returns (events: seq<Event<S>>)
    requires Inv(s) && s.maxQueue >= 1 && !s.worker.Exited? && t < |s.producers| && s.producers[t].Asleep?
    ensures |events| <= |Remaining(s)| + if s.worker.Ready? then 1 else 2
    ensures forall i :: 0 <= i < |events| ==> events[i].WorkerStep? || events[i].Notify? || events[i].CloserNotify?
    ensures var r := Run(s, events); t < |r.producers| && r.producers[t] == Woken(s.producers[t].series)
    decreases |Remaining(s)|, s.worker.Writing? || s.worker.Sleeping?
  {
    var e := WorkerStep;
    if s.worker.Sleeping? {
      if s.closer.Stopping? {
        e := CloserNotify;
      } else {
        var u :| 0 <= u < |s.producers| && s.producers[u].Notifying?;
        e := Notify(u);
      }
    }
    var s' := Step(s, e);
    StepKeeps(s, e);
    if s.worker.Ready? {
      events := [e];
      assert Run(s', []) == s';
    } else {
      var rest := SleeperIsWoken(s', t);
      events := [e] + rest;
      assert events[1..] == rest;
    }
  }

  /** With a queue limit of zero no series is ever accepted, so every call to log waits forever. */
  lemma {:induction false} ZeroLimitAcceptsNothing<S>(s: State<S>, events: seq<Event<S>>)
    requires s.maxQueue == 0 && s.accepted == [] && forall t :: 0 <= t < |s.producers| ==> !s.producers[t].Notifying?
    ensures var r := Run(s, events);
      r.accepted == [] && forall t :: 0 <= t < |r.producers| ==> !r.producers[t].Notifying?
    decreases |events|
  {
    if events != [] {
      ZeroLimitAcceptsNothing(Step(s, events[0]), events[1..]);
    }
  }

  /** Thread t is in log and has not pushed its series yet. */
  predicate Waiting<S>(s: State<S>, t: nat) {
    t < |s.producers| && (s.producers[t].Entering? || s.producers[t].Asleep? || s.producers[t].Woken?)
  }

  /** After these events the log call of thread t is accepted if it takes the lock. */
  predicate AdmittedAfter<S>(s: State<S>, t: nat, events: seq<Event<S>>) {
    Admits(Run(s, events), t)
  }

  /** The next step towards room in a full queue: the worker's own, or a notification due to it. */
  lemma TowardsRoom<S>(s: State<S>, t: nat) returns (e: Event<S>)
    requires Inv(s) && s.maxQueue >= 1 && !s.worker.Exited? && Waiting(s, t) && !Admits(s, t)
    ensures var s' := Step(s, e);
      && Inv(s') && Waiting(s', t) && s'.maxQueue == s.maxQueue && !s'.worker.Exited?
      && (s.worker.Ready? ==> Admits(s', t))
      && (s.worker.Writing? ==> |Remaining(s')| < |Remaining(s)| || (Remaining(s') == Remaining(s) && s'.worker.Ready?))
      && (s.worker.Sleeping? ==> s'.worker.Ready?)
  {
    e := WorkerStep;
    if s.worker.Sleeping? {
      if s.closer.Stopping? {
        e := CloserNotify;
      } else {
        var u :| 0 <= u < |s.producers| && s.producers[u].Notifying?;
        e := Notify(u);
      }
    }
    StepKeeps(s, e);
  }

  lemma {:induction false} DrivenToAdmission<S>(s: State<S>, t: nat) returns (events: seq<Event<S>>)
    requires Inv(s) && s.maxQueue >= 1 && !s.worker.Exited? && Waiting(s, t)
    ensures AdmittedAfter(s, t, events)
    decreases |Remaining(s)|, s.worker.Writing? || s.worker.Sleeping?
  {
    if Admits(s, t) {
      events := [];
    } else {
      var e := TowardsRoom(s, t);
      var rest := [];
      if !s.worker.Ready? {
        rest := DrivenToAdmission(Step(s, e), t);
      }
      events := [e] + rest;
      assert events[1..] == rest && Run(s, events) == Run(Step(s, e), rest);
    }
  }

  /** While the worker lives, a log call can get its series accepted if and only if the queue limit is
      not zero. */
  lemma AdmissionIff<S(!new)>(s: State<S>, t: nat)
    requires Inv(s) && !s.worker.Exited? && Waiting(s, t)
    ensures (exists events :: AdmittedAfter(s, t, events)) <==> s.maxQueue >= 1
  {
    if s.maxQueue >= 1 {
      var events := DrivenToAdmission(s, t);
      assert AdmittedAfter(s, t, events);
    } else {
      forall events ensures !AdmittedAfter(s, t, events) {
        RunKeepsMax(s, events);
      }
    }
  }

  // --------------------------------------------------------------------- flush

  /** When flush() returns, at most one worker batch of everything accepted up to its last emptiness
      check is not durable, and none exactly when the worker is not holding a batch. */
  lemma FlushGuarantee<S>(s: State<S>, t: nat)
    requires Inv(s) && FlushReturns(s, t)
    ensures var r := Step(s, FlushCheck(t));
      && r.producers[t].Idle? && r.accepted == s.accepted
      && r.durable <= |r.accepted| && |r.accepted| - r.durable <= 1000
      && r.written[..r.durable] == r.accepted[..r.durable]
      && (r.durable == |r.accepted| <==> !r.worker.Writing?)
  {
  }

  /** The worker never gives up what is durable, and once it has exited the queue only grows. */
  ghost predicate Onward<S>(s: State<S>, r: State<S>) {
    s.durable <= r.durable && (s.worker.Exited? ==> r.worker.Exited? && s.queue <= r.queue)
  }

  lemma StepOnward<S>(s: State<S>, e: Event<S>)
    requires Inv(s)
    ensures Onward(s, Step(s, e))
  {
  }

  lemma {:induction false} RunOnward<S>(s: State<S>, events: seq<Event<S>>)
    requires Inv(s)
    ensures Onward(s, Run(s, events))
    decreases |events|
  {
    if events != [] {
      StepOnward(s, events[0]);
      StepKeeps(s, events[0]);
      RunOnward(Step(s, events[0]), events[1..]);
    }
  }

  /** A worker that is awake can empty the queue while something accepted is still not durable. */
  lemma {:induction false} EmptiedTooEarly<S>(s: State<S>, t: nat) returns (events: seq<Event<S>>)
    requires Inv(s) && !s.worker.Sleeping? && !s.worker.Exited? && s.durable < |s.accepted|
    requires t < |s.producers| && s.producers[t].Polling?
    ensures var r := Run(s, events); FlushReturns(r, t) && r.durable < |s.accepted|
    decreases Distance(s)
  {
    if s.queue == [] {
      events := [];
    } else {
      var s' := Step(s, Event<S>.WorkerStep);
      StepKeeps(s, Event<S>.WorkerStep);
      WorkerUnfinished(s);
      var rest := EmptiedTooEarly(s', t);
      events := [WorkerStep] + rest;
      assert events[1..] == rest;
    }
  }

  lemma WorkerUnfinished<S>(s: State<S>)
    requires Inv(s) && !s.worker.Sleeping? && !s.worker.Exited? && s.durable < |s.accepted| && s.queue != []
    ensures var r := WorkerNext(s);
      && !r.worker.Sleeping? && !r.worker.Exited? && r.durable < |r.accepted| && r.accepted == s.accepted
      && Distance(r) < Distance(s)
      && |r.producers| == |s.producers| && forall t :: 0 <= t < |s.producers| && s.producers[t].Polling? ==> r.producers[t].Polling?
  {
  }

  /** What a call of flush() is worth: it is certain to return only after everything accepted before the
      call is durable if and only if all of it was durable already, or the worker has exited, in
      which case flush() returns only if nothing was left behind. */
  lemma FlushPromiseIff<S(!new)>(s: State<S>, t: nat)
    requires Inv(s) && t < |s.producers| && s.producers[t].Flushing?
    ensures (forall events :: FlushReturns(Run(s, events), t) ==> Run(s, events).durable >= |s.accepted|) <==>
      s.durable == |s.accepted| || s.worker.Exited?
  {
    if s.durable == |s.accepted| || s.worker.Exited? {
      forall events ensures FlushReturns(Run(s, events), t) ==> Run(s, events).durable >= |s.accepted| {
        RunOnward(s, events);
      }
    } else {
      var e := Event<S>.FlushNotify(t);
      StepKeeps(s, e);
      var rest := EmptiedTooEarly(Step(s, e), t);
      var events := [e] + rest;
      assert events[1..] == rest && Run(s, events) == Run(Step(s, e), rest);
      assert FlushReturns(Run(s, events), t) && Run(s, events).durable < |s.accepted|;
    }
  }

  /** flush() can be called after log has returned, and return while the series is not yet durable. */
  lemma FlushCanReturnEarly<S>(x: S)
    ensures var before := Run(Init<S>(1, 2), [Log(0, x), Lock(0), Notify(0), Flush(1), FlushNotify(1), WorkerStep]);
      var after := Step(before, FlushCheck(1));
      && before.producers == [Idle, Polling] && after.producers == [Idle, Idle]
      && after.accepted == [x] && after.durable == 0
  {
    var s0 := Init<S>(1, 2);
    var es := [Log(0, x), Lock(0), Notify(0), Flush(1), FlushNotify(1), WorkerStep];
    SixSteps(s0, es);
    LoggedOnce(s0, x);
    QueuedWhileFlushing(s0.(queue := [x], accepted := [x]), x);
  }

  lemma LoggedOnce<S>(s: State<S>, x: S)
    requires s == Init<S>(1, 2)
    ensures Step(Step(Step(s, Log(0, x)), Lock(0)), Notify(0)) == s.(queue := [x], accepted := [x])
  {
    var s1 := Step(s, Log(0, x));
    assert s1 == s.(producers := [Entering(x), Idle]);
    assert Step(s1, Lock(0)) == s.(producers := [Notifying, Idle], queue := [x], accepted := [x]);
    assert s.producers == [Idle, Idle];
  }

  lemma QueuedWhileFlushing<S>(s: State<S>, x: S)
    requires s.queue == [x] && s.producers == [Idle, Idle] && s.worker.Ready?
    ensures Step(Step(Step(s, Flush(1)), FlushNotify(1)), WorkerStep)
         == s.(queue := [], producers := [Idle, Polling], worker := Writing([x]))
  {
    var s2 := Step(Step(s, Flush(1)), FlushNotify(1));
    assert s2 == s.(producers := [Idle, Polling]);
    assert BatchSize(s.queue) == 1 && s.queue[..1] == [x] && s.queue[1..] == [];
    assert WakeAll(s2.producers) == [Idle, Polling];
  }

  lemma ThreeSteps<S>(s: State<S>, es: seq<Event<S>>)
    requires |es| >= 3
    ensures Run(s, es) == Run(Step(Step(Step(s, es[0]), es[1]), es[2]), es[3..])
  {
    var s1 := Step(s, es[0]);
    var s2 := Step(s1, es[1]);
    assert Run(s1, es[1..]) == Run(s2, es[2..]) by { assert es[1..][1..] == es[2..]; }
    assert Run(s2, es[2..]) == Run(Step(s2, es[2]), es[3..]) by { assert es[2..][1..] == es[3..]; }
  }

  lemma SixSteps<S>(s: State<S>, es: seq<Event<S>>)
    requires |es| == 6
    ensures Run(s, es) == Step(Step(Step(Step(Step(Step(s, es[0]), es[1]), es[2]), es[3]), es[4]), es[5])
  {
    ThreeSteps(s, es);
    var a := Step(Step(Step(s, es[0]), es[1]), es[2]);
    ThreeSteps(a, es[3..]);
    assert Run(Step(Step(Step(a, es[3]), es[4]), es[5]), es[3..][3..]) == Step(Step(Step(a, es[3]), es[4]), es[5]);
  }

  // ------------------------------------------------------------------- shutdown

  /** How far the worker is from exiting. */
  function Distance<S>(s: State<S>): nat {
    4 * |s.queue| +
    match s.worker
    case Ready => 1
    case Sleeping => 2
    case Writing(batch) => 2 + 2 * |batch|
    case Exited => 0
  }

  /** If thread t takes the lock now, its log call is accepted. */
  predicate Admits<S>(s: State<S>, t: nat) {
    t < |s.producers| && (s.producers[t].Entering? || s.producers[t].Woken?) && |s.queue| < s.maxQueue
  }

  predicate Pushes<S>(s: State<S>, e: Event<S>) {
    e.Lock? && Admits(s, e.thread)
  }

  /** After a stop request every worker step brings the exit nearer, and no other step that does not
      push a series moves it further away. */
  lemma ShutdownAdvances<S>(s: State<S>, e: Event<S>)
    requires Inv(s) && !s.running && !Pushes(s, e)
    ensures Distance(Step(s, e)) <= Distance(s) && !Step(s, e).running
    ensures e.WorkerStep? && !s.worker.Sleeping? && !s.worker.Exited? ==> Distance(Step(s, e)) < Distance(s)
    ensures s.worker.Sleeping? && e.CloserNotify? && s.closer.Stopping? ==> Distance(Step(s, e)) < Distance(s)
    ensures s.worker.Sleeping? && e.Notify? && e.thread < |s.producers| && s.producers[e.thread].Notifying? ==>
      Distance(Step(s, e)) < Distance(s)
  {
  }

  /** After a stop request a step that brings the exit nearer is always available. */
  lemma ShutdownStep<S>(s: State<S>) returns (e: Event<S>)
    requires Inv(s) && !s.running && !s.worker.Exited?
    ensures !Pushes(s, e) && Distance(Step(s, e)) < Distance(s)
  {
    if !s.worker.Sleeping? {
      e := WorkerStep;
    } else if s.closer.Stopping? {
      e := CloserNotify;
    } else {
      var t :| 0 <= t < |s.producers| && s.producers[t].Notifying?;
      e := Notify(t);
    }
  }

  /** The worker exits within Distance(s) such steps, and then everything accepted is durable. */
  lemma {:induction false} ShutdownCompletes<S>(s: State<S>) returns (events: seq<Event<S>>)
    requires Inv(s) && !s.running && !s.worker.Exited?
    ensures |events| <= Distance(s)
    ensures var r := Run(s, events);
      r.worker.Exited? && r.accepted == s.accepted && r.written == s.accepted && r.durable == |s.accepted|
    decreases Distance(s)
  {
    var e := ShutdownStep(s);
    var s' := Step(s, e);
    StepKeeps(s, e);
    assert s'.accepted == s.accepted;
    if s'.worker.Exited? {
      events := [e];
      assert events[1..] == [] && Run(s', []) == s';
    } else {
      ShutdownAdvances(s, e);
      var rest := ShutdownCompletes(s');
      events := [e] + rest;
      assert events[1..] == rest;
    }
  }

  ghost predicate NoLogInFlight<S>(s: State<S>) {
    forall t :: 0 <= t < |s.producers| ==> s.producers[t].Idle? || s.producers[t].Flushing? || s.producers[t].Polling?
  }

  ghost predicate NoLogCalls<S>(events: seq<Event<S>>) {
    forall i :: 0 <= i < |events| ==> !events[i].Log?
  }

  lemma QuietStep<S>(s: State<S>, e: Event<S>)
    requires Inv(s) && NoLogInFlight(s) && !e.Log? && (s.worker.Exited? ==> s.queue == [])
    ensures var r := Step(s, e);
      Inv(r) && NoLogInFlight(r) && r.accepted == s.accepted && (r.worker.Exited? ==> r.queue == [])
  {
    StepKeeps(s, e);
    QuietWorker(s);
  }

  lemma QuietWorker<S>(s: State<S>)
    requires NoLogInFlight(s)
    ensures NoLogInFlight(WorkerNext(s)) && WorkerNext(s).accepted == s.accepted
  {
  }

  lemma {:induction false} QuietRun<S>(s: State<S>, events: seq<Event<S>>)
    requires Inv(s) && NoLogInFlight(s) && NoLogCalls(events) && (s.worker.Exited? ==> s.queue == [])
    ensures var r := Run(s, events);
      Inv(r) && NoLogInFlight(r) && r.accepted == s.accepted && (r.worker.Exited? ==> r.queue == [])
    decreases |events|
  {
    if events != [] {
      assert !events[0].Log?;
      QuietStep(s, events[0]);
      QuietRun(Step(s, events[0]), events[1..]);
    }
  }

  /** When no log call overlaps destruction, the destructor returns only after every accepted series
      has been written and flushed. */
  lemma DestructorLosesNothing<S>(s: State<S>, events: seq<Event<S>>)
    requires Inv(s) && s.closer.NotStarted? && NoLogInFlight(s) && NoLogCalls(events)
    ensures var r := Run(Step(s, Close), events);
      r.closer.Done? ==> r.accepted == s.accepted && r.written == s.accepted && r.durable == |s.accepted|
  {
    StepKeeps(s, Event<S>.Close);
    QuietRun(Step(s, Event<S>.Close), events);
  }

  // ------------------------------------------------- log calls that overlap destruction

  /** What every later state r remembers of s: accepted series stay accepted, and the exit happens
      once, with at least the series accepted before it counted. */
  ghost predicate Since<S>(s: State<S>, r: State<S>) {
    && s.accepted <= r.accepted
    && (s.worker.Exited? ==> r.worker.Exited? && r.acceptedAtExit == s.acceptedAtExit)
    && (!s.worker.Exited? && r.worker.Exited? ==> r.acceptedAtExit >= |s.accepted|)
  }

  lemma StepSince<S>(s: State<S>, e: Event<S>)
    ensures Since(s, Step(s, e))
  {
  }

  lemma SinceTransitive<S>(s: State<S>, q: State<S>, r: State<S>)
    requires Since(s, q) && Since(q, r)
    ensures Since(s, r)
  {
  }

  lemma {:induction false} RunSince<S>(s: State<S>, events: seq<Event<S>>)
    ensures Since(s, Run(s, events))
    decreases |events|
  {
    if events != [] {
      var s' := Step(s, events[0]);
      StepSince(s, events[0]);
      RunSince(s', events[1..]);
      SinceTransitive(s, s', Run(s', events[1..]));
    }
  }

  /** After the exit, the log holds exactly what had been accepted before it, all durable; the rest
      stays in the queue. */
  lemma AtExit<S>(s: State<S>)
    requires Inv(s) && s.worker.Exited?
    ensures s.acceptedAtExit <= |s.accepted|
    ensures s.written == s.accepted[..s.acceptedAtExit] && s.queue == s.accepted[s.acceptedAtExit..]
    ensures s.durable == s.acceptedAtExit
  {
  }

  /** The fate of one log call, whenever it comes: its series is in the log and durable once the worker
      has exited if and only if the worker had not yet exited when the call took the lock; otherwise
      it is never written. */
  lemma WrittenIffBeforeExit<S>(s: State<S>, t: nat, events: seq<Event<S>>)
    requires Inv(s) && Admits(s, t)
    ensures var n, r := |s.accepted|, Run(Step(s, Lock(t)), events);
      && n < |r.accepted| && r.accepted[n] == s.producers[t].series
      && (r.worker.Exited? ==> (n < |r.written| <==> !s.worker.Exited?))
      && (r.worker.Exited? && n < |r.written| ==> r.written[n] == s.producers[t].series && n < r.durable)
  {
    var s' := Step(s, Lock(t));
    StepKeeps(s, Lock(t));
    RunKeeps(s', events);
    RunSince(s', events);
    var r := Run(s', events);
    if r.worker.Exited? {
      AtExit(r);
    }
    if s.worker.Exited? {
      AtExit(s);
    }
  }

  /** A log call that began before destruction can be accepted while the destructor waits for a worker
      that has already exited, and is then never written. */
  lemma OverlappingLogIsLost<S>(x: S)
    ensures var s := Run(Init<S>(1, 1), [Log(0, x), Close, CloserNotify, WorkerStep, Lock(0), Join]);
      s.closer.Done? && s.accepted == [x] && s.written == []
  {
    SixSteps(Init<S>(1, 1), [Log(0, x), Event<S>.Close, CloserNotify, WorkerStep, Lock(0), Join]);
  }
}
