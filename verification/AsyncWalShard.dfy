/** The bodies of `AsyncWALShard`'s critical sections and of its worker loop, as they run between
    lock and unlock, over the mutable queue and the write-ahead log. Each is proved to be the
    corresponding transition of the protocol `AsyncWal`. */
module AsyncWalShard {
  import opened Batches
  import Protocol = AsyncWal

  /** n consecutive steps of the worker. */
  function WorkerSteps<S>(s: Protocol.State<S>, n: nat): Protocol.State<S> {
    if n == 0 then s else Protocol.WorkerNext(WorkerSteps(s, n - 1))
  }

  lemma {:induction false} WorkerStepsAdd<S>(s: Protocol.State<S>, m: nat, n: nat)
    ensures WorkerSteps(s, m + n) == WorkerSteps(WorkerSteps(s, m), n)
    decreases n
  {
    if n > 0 {
      WorkerStepsAdd(s, m, n - 1);
    }
  }

  /** They are a run of the protocol. */
  lemma {:induction false} WorkerStepsAreRun<S>(s: Protocol.State<S>, n: nat)
    ensures WorkerSteps(s, n) == Protocol.Run(s, seq(n, _ => Protocol.WorkerStep))
    decreases n
  {
    if n > 0 {
      WorkerStepsAdd(s, 1, n - 1);
      assert WorkerSteps(s, 1) == Protocol.WorkerNext(WorkerSteps(s, 0));
      WorkerStepsAreRun(Protocol.WorkerNext(s), n - 1);
      var events := seq(n, _ => Protocol.Event<S>.WorkerStep);
      assert events[1..] == seq(n - 1, _ => Protocol.Event<S>.WorkerStep);
    }
  }

  class WriteAheadLog<S> {
    var records: seq<S>
    var durable: nat

    constructor ()
      ensures records == [] && durable == 0
    {
      records, durable := [], 0;
    }

    /** log(series, false): append without flushing. */
    method Log(series: S)
      modifies this
      ensures records == old(records) + [series] && durable == old(durable)
    {
      records := records + [series];
    }

    method Flush()
      modifies this
      ensures records == old(records) && durable == |records|
    {
      durable := |records|;
    }
  }

  class Shard<S> {
    const maxQueue: nat
    const wal: WriteAheadLog<S>
    var queue: seq<S>
    var running: bool

    constructor (maxQueue: nat)
      ensures this.maxQueue == maxQueue && fresh(wal) && queue == [] && running
      ensures wal.records == [] && wal.durable == 0
    {
      this.maxQueue := maxQueue;
      wal := new WriteAheadLog<S>();
      queue, running := [], true;
    }

    /** The protocol state s has this shard's queue, flag and log. */
    ghost predicate Shows(s: Protocol.State<S>)
      reads this, wal
    {
      && s.maxQueue == maxQueue && s.queue == queue && s.running == running
      && s.written == wal.records && s.durable == wal.durable
    }

    /** The locked part of log: pushes exactly when the queue has room, otherwise the caller waits.
        It is the protocol's step of the producer t. */
    method TryPush(series: S, ghost s: Protocol.State<S>, ghost t: nat) returns (pushed: bool)
      requires Shows(s) && t < |s.producers| && s.producers[t] in {Protocol.Entering(series), Protocol.Woken(series)}
      modifies this`queue
      ensures pushed <==> |old(queue)| < maxQueue
      ensures queue == if pushed then old(queue) + [series] else old(queue)
      ensures var s' := Protocol.LockStep(s, t);
        Shows(s') && s'.producers[t] == (if pushed then Protocol.Notifying else Protocol.Asleep(series))
    {
      if |queue| >= maxQueue {
        return false;
      }
      queue := queue + [series];
      return true;
    }

    /** The drain loop: the batch is the front of the queue, at most BATCH_SIZE long, in order. With a
        non-empty queue it is the protocol's step of a ready worker. */
    method Drain(ghost s: Protocol.State<S>) returns (batch: seq<S>)
      requires Shows(s) && s.worker.Ready?
      modifies this`queue
      ensures batch + queue == old(queue)
      ensures |batch| == BatchSize(old(queue)) <= 1000 && (queue == [] || |batch| == 1000)
      ensures batch != [] ==> Shows(Protocol.WorkerNext(s)) && Protocol.WorkerNext(s).worker == Protocol.Writing(batch)
    {
      batch := [];
      while queue != [] && |batch| < BATCH_SIZE
        invariant batch + queue == old(queue) && |batch| <= BATCH_SIZE
        decreases |queue|
      {
        batch := batch + [queue[0]];
        queue := queue[1..];
      }
      assert batch == old(queue)[..|batch|] && queue == old(queue)[|batch|..];
    }

    /** Write every series of the batch in order, then flush once: the protocol's steps of a writing
        worker, one for each series and one for the flush. */
    method Process(batch: seq<S>, ghost s: Protocol.State<S>)
      requires Shows(s) && s.worker == Protocol.Writing(batch)
      modifies wal
      ensures wal.records == old(wal.records) + batch && wal.durable == |wal.records|
      ensures var s' := WorkerSteps(s, |batch| + 1); Shows(s') && s'.worker.Ready? && s'.running == s.running
    {
      for i := 0 to |batch|
        invariant wal.records == old(wal.records) + batch[..i]
        invariant Shows(WorkerSteps(s, i)) && WorkerSteps(s, i).worker == Protocol.Writing(batch[i..])
      {
        wal.Log(batch[i]);
        assert batch[..i + 1] == batch[..i] + [batch[i]];
        assert batch[i..][1..] == batch[i + 1..];
      }
      assert batch[..|batch|] == batch;
      wal.Flush();
    }

    /** One round of the worker loop with something in the queue. */
    method Round(ghost s: Protocol.State<S>) returns (ghost steps: nat)
      requires Shows(s) && s.worker.Ready? && queue != []
      modifies this`queue, wal
      ensures wal.records + queue == old(wal.records) + old(queue) && wal.durable == |wal.records|
      ensures |queue| < |old(queue)|
      ensures Shows(WorkerSteps(s, steps)) && WorkerSteps(s, steps).worker.Ready?
    {
      ghost var records := wal.records;
      var batch := Drain(s);
      Process(batch, Protocol.WorkerNext(s));
      assert records + batch + queue == records + (batch + queue);
      steps := 1 + (|batch| + 1);
      WorkerStepsAdd(s, 1, |batch| + 1);
      assert WorkerSteps(s, 1) == Protocol.WorkerNext(WorkerSteps(s, 0));
    }

    /** The worker loop once the wait predicate holds for good, that is after a stop request: it
        terminates, drains everything and leaves it durable, by a run of worker steps that ends with
        the worker's exit. */
    method DrainUntilExit(ghost s: Protocol.State<S>) returns (ghost steps: nat)
      requires !running && wal.durable == |wal.records| && Shows(s) && s.worker.Ready?
      modifies this`queue, wal
      ensures queue == [] && wal.records == old(wal.records) + old(queue) && wal.durable == |wal.records|
      ensures Shows(WorkerSteps(s, steps)) && WorkerSteps(s, steps).worker.Exited?
    {
      steps := 0;
      ghost var now := s;
      while true
        invariant wal.records + queue == old(wal.records) + old(queue) && wal.durable == |wal.records|
        invariant now == WorkerSteps(s, steps) && Shows(now) && now.worker.Ready?
        decreases |queue|
      {
        if !running && queue == [] {
          break;
        }
        ghost var more := Round(now);
        WorkerStepsAdd(s, steps, more);
        steps, now := steps + more, WorkerSteps(now, more);
      }
      steps := steps + 1;
    }
  }
}
