/** The bounded multi-producer multi-consumer queue as a transition system.

    Any number of threads run `push` and `pop`. Every access to `head_`, `tail_`, a slot's sequence
    number or a slot's storage is one step, and a run is an arbitrary interleaving of such steps.
    Memory is sequentially consistent, tickets are unbounded, and the weak compare-exchange may fail
    spuriously. The fields `pushed`, `pushedBy`, `poppedBy` and `returned` only record history.
 */
module QueueProtocol {
  import opened Wrappers
  import opened ModularTickets

  /** Where a thread is inside `push` or `pop`. */
  datatype Local<T> =
    | Idle
    | PushLoad(item: T)               // about to load tail_
    | PushSeq(item: T, pos: nat)      // about to load slot.seq
    | PushCas(item: T, pos: nat)      // saw seq == pos, about to compare-exchange tail_
    | PushWrite(item: T, pos: nat)    // owns ticket pos, about to construct the item
    | PushPublish(item: T, pos: nat)  // about to store seq := pos + 1
    | PopLoad
    | PopSeq(pos: nat)
    | PopCas(pos: nat)
    | PopTake(pos: nat)               // owns ticket pos, about to move the item out
    | PopRelease(pos: nat, taken: T)  // about to store seq := pos + capacity
    | Faulted                         // read storage that holds no object

  datatype State<T> = State(
    capacity: nat, head: nat, tail: nat,
    seqs: seq<nat>, data: seq<Option<T>>, locals: seq<Local<T>>,
    pushed: seq<T>, pushedBy: seq<nat>, poppedBy: seq<nat>, returned: map<nat, T>)

  datatype Action<T> = StartPush(item: T) | StartPop | Advance(casSucceeds: bool)

  /** One thread is scheduled and takes one step. */
  datatype Event<T> = Event(thread: nat, action: Action<T>)

  function Init<T>(capacity: nat, threads: nat): State<T> {
    State(capacity, 0, 0, seq(capacity, i => i), seq(capacity, _ => None), seq(threads, _ => Idle),
          [], [], [], map[])
  }

  predicate WellFormed<T>(s: State<T>) {
    s.capacity >= 1 && |s.seqs| == s.capacity && |s.data| == s.capacity
  }

  function Goto<T>(s: State<T>, t: nat, l: Local<T>): State<T>
    requires t < |s.locals|
  {
    s.(locals := s.locals[t := l])
  }

  function Slot<T>(s: State<T>, pos: int): nat
    requires WellFormed(s)
  {
    pos % s.capacity
  }

  function AdvancePush<T>(s: State<T>, t: nat, casSucceeds: bool): State<T>
    requires WellFormed(s) && t < |s.locals|
  {
    match s.locals[t]
    case PushLoad(item) => Goto(s, t, PushSeq(item, s.tail))
    case PushSeq(item, pos) =>
      var q := s.seqs[Slot(s, pos)];
      if q == pos then Goto(s, t, PushCas(item, pos))
      else if q < pos then Goto(s, t, Idle)  // push returns false
      else Goto(s, t, PushLoad(item))
    case PushCas(item, pos) =>
      if s.tail == pos && casSucceeds then
        Goto(s, t, PushWrite(item, pos)).(tail := pos + 1, pushed := s.pushed + [item], pushedBy := s.pushedBy + [t])
      else Goto(s, t, PushSeq(item, s.tail))
    case PushWrite(item, pos) =>
      Goto(s, t, PushPublish(item, pos)).(data := s.data[Slot(s, pos) := Some(item)])
    case PushPublish(item, pos) =>
      Goto(s, t, Idle).(seqs := s.seqs[Slot(s, pos) := pos + 1])
    case _ => s
  }

  function AdvancePop<T>(s: State<T>, t: nat, casSucceeds: bool): State<T>
    requires WellFormed(s) && t < |s.locals|
  {
    match s.locals[t]
    case PopLoad => Goto(s, t, PopSeq(s.head))
    case PopSeq(pos) =>
      var q := s.seqs[Slot(s, pos)];
      if q == pos + 1 then Goto(s, t, PopCas(pos))
      else if q < pos + 1 then Goto(s, t, Idle)  // pop returns false
      else Goto(s, t, PopLoad)
    case PopCas(pos) =>
      if s.head == pos && casSucceeds then
        Goto(s, t, PopTake(pos)).(head := pos + 1, poppedBy := s.poppedBy + [t])
      else Goto(s, t, PopSeq(s.head))
    case PopTake(pos) =>
      var stored := s.data[Slot(s, pos)];
      if stored.None? then Goto(s, t, Faulted)
      else Goto(s, t, PopRelease(pos, stored.value)).(data := s.data[Slot(s, pos) := None])
    case PopRelease(pos, taken) =>
      Goto(s, t, Idle).(seqs := s.seqs[Slot(s, pos) := pos + s.capacity], returned := s.returned[pos := taken])
    case _ => s
  }

  function Step<T>(s: State<T>, e: Event<T>): State<T>
    requires WellFormed(s)
  {
    if e.thread >= |s.locals| then s
    else
      match e.action
      case StartPush(item) => if s.locals[e.thread].Idle? then Goto(s, e.thread, PushLoad(item)) else s
      case StartPop => if s.locals[e.thread].Idle? then Goto(s, e.thread, PopLoad) else s
      case Advance(ok) =>
        var l := s.locals[e.thread];
        if l.PushLoad? || l.PushSeq? || l.PushCas? || l.PushWrite? || l.PushPublish?
        then AdvancePush(s, e.thread, ok) else AdvancePop(s, e.thread, ok)
  }

  /** The state after a whole interleaving. */
  function Run<T>(s: State<T>, events: seq<Event<T>>): (r: State<T>)
    requires WellFormed(s)
    ensures WellFormed(r) && r.capacity == s.capacity && |r.locals| == |s.locals|
    decreases |events|
  {
    if events == [] then s else Run(Step(s, events[0]), events[1..])
  }

  // ---------------------------------------------------------------- invariant

  ghost predicate PushOwner<T>(s: State<T>, t: nat, p: int) {
    t < |s.locals| && (s.locals[t].PushWrite? || s.locals[t].PushPublish?) && s.locals[t].pos == p
  }

  ghost predicate PopOwner<T>(s: State<T>, t: nat, p: int) {
    t < |s.locals| && (s.locals[t].PopTake? || s.locals[t].PopRelease?) && s.locals[t].pos == p
  }

  ghost predicate Shape<T>(s: State<T>) {
    && s.capacity >= 2 && WellFormed(s)
    && s.head <= s.tail <= s.head + s.capacity
    && |s.pushed| == s.tail && |s.pushedBy| == s.tail && |s.poppedBy| == s.head
  }

  /** Ticket p is claimed by a push that has not yet published it. */
  ghost predicate Claimed<T>(s: State<T>, p: int)
    requires Shape(s)
  {
    && s.head <= p < s.tail
    && s.seqs[Slot(s, p)] == p
    && PushOwner(s, s.pushedBy[p], p)
    && s.locals[s.pushedBy[p]].item == s.pushed[p]
    && s.data[Slot(s, p)] == if s.locals[s.pushedBy[p]].PushWrite? then None else Some(s.pushed[p])
  }

  /** Ticket p's item sits in its slot, ready to be popped. */
  ghost predicate Published<T>(s: State<T>, p: int)
    requires Shape(s)
  {
    && s.head <= p < s.tail
    && s.seqs[Slot(s, p)] == p + 1
    && s.data[Slot(s, p)] == Some(s.pushed[p])
  }

  /** Ticket p is claimed by a pop that has not yet released the slot. */
  ghost predicate Consuming<T>(s: State<T>, p: int)
    requires Shape(s)
  {
    && 0 <= p < s.head
    && s.seqs[Slot(s, p)] == p + 1
    && PopOwner(s, s.poppedBy[p], p)
    && p !in s.returned
    && (s.locals[s.poppedBy[p]].PopTake? ==> s.data[Slot(s, p)] == Some(s.pushed[p]))
    && (s.locals[s.poppedBy[p]].PopRelease? ==>
          s.data[Slot(s, p)] == None && s.locals[s.poppedBy[p]].taken == s.pushed[p])
  }

  /** The slot of ticket p is empty and waits for ticket p + capacity. */
  ghost predicate Free<T>(s: State<T>, p: int)
    requires Shape(s)
  {
    && p < s.head
    && s.seqs[Slot(s, p)] == p + s.capacity
    && s.data[Slot(s, p)] == None
    && (p >= 0 ==> p in s.returned)
  }

  ghost predicate SlotOk<T>(s: State<T>, p: int)
    requires Shape(s)
  {
    Claimed(s, p) || Published(s, p) || Consuming(s, p) || Free(s, p)
  }

  ghost predicate LocalOk<T>(s: State<T>, t: nat)
    requires Shape(s) && t < |s.locals|
  {
    match s.locals[t]
    case Idle => true
    case PushLoad(_) => true
    case PushSeq(_, pos) => pos <= s.tail
    case PushCas(_, pos) => pos <= s.tail && (pos == s.tail ==> s.seqs[Slot(s, pos)] == pos)
    case PushWrite(_, pos) => pos < s.tail && s.pushedBy[pos] == t && Claimed(s, pos)
    case PushPublish(_, pos) => pos < s.tail && s.pushedBy[pos] == t && Claimed(s, pos)
    case PopLoad => true
    case PopSeq(pos) => pos <= s.head
    case PopCas(pos) => pos <= s.head && (pos == s.head ==> pos < s.tail && s.seqs[Slot(s, pos)] == pos + 1)
    case PopTake(pos) => s.tail - s.capacity <= pos < s.head && s.poppedBy[pos] == t && Consuming(s, pos)
    case PopRelease(pos, _) => s.tail - s.capacity <= pos < s.head && s.poppedBy[pos] == t && Consuming(s, pos)
    case Faulted => false
  }

  ghost predicate HistoryOk<T>(s: State<T>)
    requires Shape(s)
  {
    && (forall p :: p in s.returned ==> p < s.head && s.returned[p] == s.pushed[p])
    && (forall p :: 0 <= p < s.tail - s.capacity ==> p in s.returned)
  }

  ghost predicate Inv<T>(s: State<T>) {
    && Shape(s)
    && (forall p :: s.tail - s.capacity <= p < s.tail ==> SlotOk(s, p))
    && (forall t :: 0 <= t < |s.locals| ==> LocalOk(s, t))
    && HistoryOk(s)
  }

  // ------------------------------------------------- every step keeps the invariant

  predicate Owning<T>(l: Local<T>) {
    l.PushWrite? || l.PushPublish? || l.PopTake? || l.PopRelease?
  }

  lemma DistinctSlots<T>(s: State<T>)
    requires Shape(s)
    ensures forall p, q :: s.tail - s.capacity <= p < q < s.tail ==> Slot(s, p) != Slot(s, q)
    ensures Slot(s, s.tail) == Slot(s, s.tail - s.capacity)
  {
    forall p, q | s.tail - s.capacity <= p < q < s.tail
      ensures Slot(s, p) != Slot(s, q)
    {
      if Slot(s, p) == Slot(s, q) {
        SameSlotSameTicket(p, q, s.capacity);
        assert false;
      }
    }
    Laps(s.tail, -1, s.capacity);
  }

  lemma GotoKeeps<T>(s: State<T>, t: nat, l: Local<T>)
    requires Inv(s) && t < |s.locals|
    requires !Owning(s.locals[t]) && !Owning(l)
    requires LocalOk(Goto(s, t, l), t)
    ensures Inv(Goto(s, t, l))
  {
    var s' := Goto(s, t, l);
    forall p | s.tail - s.capacity <= p < s.tail ensures SlotOk(s', p) {
      assert SlotOk(s, p);
    }
    forall u | 0 <= u < |s.locals| ensures LocalOk(s', u) {
      assert LocalOk(s, u);
    }
  }

  lemma PushCasKeeps<T>(s: State<T>, t: nat)
    requires Inv(s) && t < |s.locals| && s.locals[t].PushCas? && s.locals[t].pos == s.tail
    ensures Free(s, s.tail - s.capacity)
    ensures Inv(AdvancePush(s, t, true))
  {
    var s' := AdvancePush(s, t, true);
    assert LocalOk(s, t);
    DistinctSlots(s);
    assert SlotOk(s, s.tail - s.capacity);
    assert Free(s, s.tail - s.capacity);
    assert Claimed(s', s.tail);
    forall p | s'.tail - s.capacity <= p < s'.tail ensures SlotOk(s', p) {
      if p < s.tail {
        assert SlotOk(s, p);
      }
    }
    forall u | 0 <= u < |s.locals| ensures LocalOk(s', u) {
      assert LocalOk(s, u);
    }
  }

  lemma PushWriteKeeps<T>(s: State<T>, t: nat)
    requires Inv(s) && t < |s.locals| && s.locals[t].PushWrite?
    ensures s.data[Slot(s, s.locals[t].pos)] == None
    ensures Inv(AdvancePush(s, t, true))
  {
    var s' := AdvancePush(s, t, true);
    var pos := s.locals[t].pos;
    assert LocalOk(s, t);
    DistinctSlots(s);
    forall p | s.tail - s.capacity <= p < s.tail ensures SlotOk(s', p) {
      assert SlotOk(s, p);
      assert p != pos ==> Slot(s, p) != Slot(s, pos);
    }
    forall u | 0 <= u < |s.locals| ensures LocalOk(s', u) {
      assert LocalOk(s, u);
      assert LocalOk(s, t);
    }
  }

  lemma PushPublishKeeps<T>(s: State<T>, t: nat)
    requires Inv(s) && t < |s.locals| && s.locals[t].PushPublish?
    ensures Inv(AdvancePush(s, t, true))
  {
    var s' := AdvancePush(s, t, true);
    var pos := s.locals[t].pos;
    assert LocalOk(s, t);
    DistinctSlots(s);
    forall p | s.tail - s.capacity <= p < s.tail ensures SlotOk(s', p) {
      assert SlotOk(s, p);
      assert p != pos ==> Slot(s, p) != Slot(s, pos);
    }
    forall u | 0 <= u < |s.locals| ensures LocalOk(s', u) {
      assert LocalOk(s, u);
    }
  }

  lemma PopCasKeeps<T>(s: State<T>, t: nat)
    requires Inv(s) && t < |s.locals| && s.locals[t].PopCas? && s.locals[t].pos == s.head
    ensures Published(s, s.head)
    ensures Inv(AdvancePop(s, t, true))
  {
    var s' := AdvancePop(s, t, true);
    assert LocalOk(s, t);
    DistinctSlots(s);
    assert SlotOk(s, s.head);
    forall p | s.tail - s.capacity <= p < s.tail ensures SlotOk(s', p) {
      assert SlotOk(s, p);
    }
    forall u | 0 <= u < |s.locals| ensures LocalOk(s', u) {
      assert LocalOk(s, u);
    }
  }

  lemma PopTakeKeeps<T>(s: State<T>, t: nat)
    requires Inv(s) && t < |s.locals| && s.locals[t].PopTake?
    ensures Inv(AdvancePop(s, t, true))
  {
    var s' := AdvancePop(s, t, true);
    var pos := s.locals[t].pos;
    assert LocalOk(s, t);
    DistinctSlots(s);
    forall p | s.tail - s.capacity <= p < s.tail ensures SlotOk(s', p) {
      assert SlotOk(s, p);
      assert p != pos ==> Slot(s, p) != Slot(s, pos);
    }
    forall u | 0 <= u < |s.locals| ensures LocalOk(s', u) {
      assert LocalOk(s, u);
    }
  }

  lemma PopReleaseKeeps<T>(s: State<T>, t: nat)
    requires Inv(s) && t < |s.locals| && s.locals[t].PopRelease?
    ensures Inv(AdvancePop(s, t, true))
  {
    var s' := AdvancePop(s, t, true);
    var pos := s.locals[t].pos;
    assert LocalOk(s, t);
    DistinctSlots(s);
    forall p | s.tail - s.capacity <= p < s.tail ensures SlotOk(s', p) {
      assert SlotOk(s, p);
      assert p != pos ==> Slot(s, p) != Slot(s, pos);
    }
    forall u | 0 <= u < |s.locals| ensures LocalOk(s', u) {
      assert LocalOk(s, u);
    }
    assert HistoryOk(s');
  }

  /** A slot's sequence number never falls behind a ticket already claimed for it. */
  lemma SeqNotBehind<T>(s: State<T>, p: nat)
    requires Inv(s)
    ensures p < s.tail ==> s.seqs[Slot(s, p)] >= p
    ensures p < s.head ==> s.seqs[Slot(s, p)] >= p + 1
    ensures p == s.tail ==> s.seqs[Slot(s, p)] <= p
    ensures p == s.head ==> s.seqs[Slot(s, p)] <= p + 1
  {
    DistinctSlots(s);
    assert SlotOk(s, s.tail - s.capacity);
    if p < s.tail - s.capacity {
      var q := Current(p, s.tail, s.capacity);
      CurrentIsLater(p, s.tail, s.capacity);
      assert SlotOk(s, q);
    } else if p < s.tail {
      assert SlotOk(s, p);
    }
  }

  lemma PushReadKeeps<T>(s: State<T>, t: nat, ok: bool)
    requires Inv(s) && t < |s.locals|
    requires s.locals[t].PushLoad? || s.locals[t].PushSeq? || s.locals[t].PushCas?
    ensures Inv(AdvancePush(s, t, ok))
  {
    assert LocalOk(s, t);
    if s.locals[t].PushCas? && s.locals[t].pos == s.tail && ok {
      PushCasKeeps(s, t);
    } else {
      GotoKeeps(s, t, AdvancePush(s, t, ok).locals[t]);
    }
  }

  lemma PopReadKeeps<T>(s: State<T>, t: nat, ok: bool)
    requires Inv(s) && t < |s.locals|
    requires s.locals[t].PopLoad? || s.locals[t].PopSeq? || s.locals[t].PopCas?
    ensures Inv(AdvancePop(s, t, ok))
  {
    assert LocalOk(s, t);
    if s.locals[t].PopCas? && s.locals[t].pos == s.head && ok {
      PopCasKeeps(s, t);
    } else {
      if s.locals[t].PopSeq? {
        SeqSeenByPop(s, t);
      }
      GotoKeeps(s, t, AdvancePop(s, t, ok).locals[t]);
    }
  }

  lemma AdvanceKeeps<T>(s: State<T>, t: nat, ok: bool)
    requires Inv(s) && t < |s.locals|
    ensures Inv(Step(s, Event(t, Advance(ok))))
  {
    match s.locals[t]
    case PushWrite(_, _) => PushWriteKeeps(s, t);
    case PushPublish(_, _) => PushPublishKeeps(s, t);
    case PopTake(_) => PopTakeKeeps(s, t);
    case PopRelease(_, _) => PopReleaseKeeps(s, t);
    case PushLoad(_) => PushReadKeeps(s, t, ok);
    case PushSeq(_, _) => PushReadKeeps(s, t, ok);
    case PushCas(_, _) => PushReadKeeps(s, t, ok);
    case PopLoad => PopReadKeeps(s, t, ok);
    case PopSeq(_) => PopReadKeeps(s, t, ok);
    case PopCas(_) => PopReadKeeps(s, t, ok);
    case Idle =>
    case Faulted =>
  }

  lemma StepKeeps<T>(s: State<T>, e: Event<T>)
    requires Inv(s)
    ensures Inv(Step(s, e))
  {
    if e.thread < |s.locals| {
      match e.action
      case StartPush(item) => if s.locals[e.thread].Idle? { GotoKeeps(s, e.thread, PushLoad(item)); }
      case StartPop => if s.locals[e.thread].Idle? { GotoKeeps(s, e.thread, PopLoad); }
      case Advance(ok) => AdvanceKeeps(s, e.thread, ok);
    }
  }

  /** A pop that finds its ticket published at the head finds the queue non-empty. */
  lemma SeqSeenByPop<T>(s: State<T>, t: nat)
    requires Inv(s) && t < |s.locals| && s.locals[t].PopSeq?
    ensures var pos := s.locals[t].pos;
      pos == s.head && s.seqs[Slot(s, pos)] == pos + 1 ==> pos < s.tail
  {
    assert LocalOk(s, t);
    SeqNotBehind(s, s.locals[t].pos);
  }

  lemma InitInv<T>(capacity: nat, threads: nat)
    requires capacity >= 2
    ensures Inv(Init<T>(capacity, threads))
  {
    var s := Init<T>(capacity, threads);
    forall p | s.tail - s.capacity <= p < s.tail ensures SlotOk(s, p) {
      BeforeFirst(p, capacity);
      assert s.seqs[p + capacity] == p + capacity && s.data[p + capacity] == None;
      assert Free(s, p);
    }
  }

  lemma {:induction false} RunKeeps<T>(s: State<T>, events: seq<Event<T>>)
    requires Inv(s)
    ensures Inv(Run(s, events))
    decreases |events|
  {
    if events != [] {
      StepKeeps(s, events[0]);
      RunKeeps(Step(s, events[0]), events[1..]);
    }
  }

  // ------------------------------------------------------------------ main results

  /** Every reachable state of every interleaving satisfies the protocol invariant. */
  lemma Safety<T>(capacity: nat, threads: nat, events: seq<Event<T>>)
    requires capacity >= 2
    ensures Inv(Run(Init<T>(capacity, threads), events))
  {
    InitInv<T>(capacity, threads);
    RunKeeps(Init<T>(capacity, threads), events);
  }

  /** Between winning the compare-exchange and storing seq, no two threads touch the same slot. */
  lemma ExclusiveOwnership<T>(s: State<T>, t: nat, u: nat)
    requires Inv(s) && t < |s.locals| && u < |s.locals| && t != u
    requires Owning(s.locals[t]) && Owning(s.locals[u])
    ensures Slot(s, s.locals[t].pos) != Slot(s, s.locals[u].pos)
  {
    assert LocalOk(s, t) && LocalOk(s, u);
    DistinctSlots(s);
    var p, q := s.locals[t].pos, s.locals[u].pos;
    assert p != q;
  }

  /** Each slot is in exactly one phase, and which one is decided by its number and the head. */
  lemma OnePhase<T>(s: State<T>, p: int)
    requires Inv(s) && s.tail - s.capacity <= p < s.tail
    ensures Claimed(s, p) <==> (p >= s.head && s.seqs[Slot(s, p)] == p)
    ensures Published(s, p) <==> (p >= s.head && s.seqs[Slot(s, p)] == p + 1)
    ensures Consuming(s, p) <==> (p < s.head && s.seqs[Slot(s, p)] == p + 1)
    ensures Free(s, p) <==> (p < s.head && s.seqs[Slot(s, p)] == p + s.capacity)
    ensures Claimed(s, p) || Published(s, p) || Consuming(s, p) || Free(s, p)
  {
    assert SlotOk(s, p);
  }

  /** The item that the pop holding ticket p has returned, is carrying, or is about to take. */
  function PoppedItem<T>(s: State<T>, p: nat): Option<T>
    requires WellFormed(s) && p < |s.poppedBy|
  {
    if p in s.returned then Some(s.returned[p])
    else if s.poppedBy[p] < |s.locals| && s.locals[s.poppedBy[p]].PopRelease? then Some(s.locals[s.poppedBy[p]].taken)
    else s.data[Slot(s, p)]
  }

  /** Nothing is lost, duplicated or reordered: pop ticket p yields the item of push ticket p. */
  lemma PopsArePrefixOfPushes<T>(s: State<T>)
    requires Inv(s)
    ensures |s.poppedBy| == s.head <= |s.pushed|
    ensures forall p :: 0 <= p < s.head ==> PoppedItem(s, p) == Some(s.pushed[p])
  {
    forall p | 0 <= p < s.head ensures PoppedItem(s, p) == Some(s.pushed[p]) {
      if p >= s.tail - s.capacity {
        assert SlotOk(s, p);
      }
    }
  }

  /** Histories only grow, and a ticket's item is handed back at most once. */
  ghost predicate Grows<T>(s: State<T>, s': State<T>) {
    && s.pushed <= s'.pushed && s.pushedBy <= s'.pushedBy && s.poppedBy <= s'.poppedBy
    && s.head <= s'.head && s.tail <= s'.tail
    && forall p :: p in s.returned ==> p in s'.returned && s'.returned[p] == s.returned[p]
  }

  lemma PushGrows<T>(s: State<T>, t: nat, ok: bool)
    requires WellFormed(s) && t < |s.locals|
    ensures Grows(s, AdvancePush(s, t, ok))
  {
  }

  lemma PopGrows<T>(s: State<T>, t: nat, ok: bool)
    requires Inv(s) && t < |s.locals|
    ensures Grows(s, AdvancePop(s, t, ok))
  {
    if s.locals[t].PopRelease? {
      assert LocalOk(s, t);
    }
  }

  lemma StepGrows<T>(s: State<T>, e: Event<T>)
    requires Inv(s)
    ensures Grows(s, Step(s, e))
  {
    if e.thread < |s.locals| && e.action.Advance? {
      PushGrows(s, e.thread, e.action.casSucceeds);
      PopGrows(s, e.thread, e.action.casSucceeds);
    }
  }

  lemma GrowsTransitive<T>(a: State<T>, b: State<T>, c: State<T>)
    requires Grows(a, b) && Grows(b, c)
    ensures Grows(a, c)
  {
  }

  lemma {:induction false} RunGrows<T>(s: State<T>, events: seq<Event<T>>)
    requires Inv(s)
    ensures Grows(s, Run(s, events))
    decreases |events|
  {
    if events != [] {
      StepGrows(s, events[0]);
      StepKeeps(s, events[0]);
      RunGrows(Step(s, events[0]), events[1..]);
      GrowsTransitive(s, Step(s, events[0]), Run(s, events));
    }
  }

  /** The abstract queue: items whose push ticket is claimed and whose pop ticket is not. */
  function Contents<T>(s: State<T>): seq<T>
    requires s.head <= |s.pushed|
  {
    s.pushed[s.head..]
  }

  /** Every step is a step of a bounded FIFO: it appends one item to a queue that has room (the
      winning exchange on tail_), removes the front item (the winning exchange on head_), or
      changes nothing. */
  lemma RefinesBoundedFifo<T>(s: State<T>, e: Event<T>)
    requires Inv(s)
    ensures Inv(Step(s, e))
    ensures |Contents(s)| <= s.capacity
    ensures var l := if e.thread < |s.locals| then s.locals[e.thread] else Idle;
      var q, q' := Contents(s), Contents(Step(s, e));
      if l.PushCas? && e.action == Advance(true) && l.pos == s.tail then |q| < s.capacity && q' == q + [l.item]
      else if l.PopCas? && e.action == Advance(true) && l.pos == s.head then q != [] && q' == q[1..]
      else q' == q
  {
    StepKeeps(s, e);
    if e.thread < |s.locals| {
      assert LocalOk(s, e.thread);
      var l := s.locals[e.thread];
      if l.PushCas? && l.pos == s.tail {
        PushCasKeeps(s, e.thread);
      }
    }
  }

  /** The push returns at its load of seq, without having pushed. */
  predicate PushReportsFull<T>(s: State<T>, t: nat)
    requires WellFormed(s) && t < |s.locals|
  {
    s.locals[t].PushSeq? && Step(s, Event(t, Advance(true))).locals[t].Idle?
  }

  /** The pop returns at its load of seq, without an item. */
  predicate PopReportsEmpty<T>(s: State<T>, t: nat)
    requires WellFormed(s) && t < |s.locals|
  {
    s.locals[t].PopSeq? && Step(s, Event(t, Advance(true))).locals[t].Idle?
  }

  /** `push` reports full exactly when, at its load of seq, it still stands at the tail and the
      ticket one lap behind has not released the slot. */
  lemma FullIsTruthful<T>(s: State<T>, t: nat)
    requires Inv(s) && t < |s.locals| && s.locals[t].PushSeq?
    ensures PushReportsFull(s, t) <==>
      s.locals[t].pos == s.tail && s.tail >= s.capacity && !Free(s, s.tail - s.capacity)
  {
    assert LocalOk(s, t);
    SeqNotBehind(s, s.locals[t].pos);
    DistinctSlots(s);
    OnePhase(s, s.tail - s.capacity);
  }

  /** `pop` reports empty exactly when, at its load of seq, it still stands at the head and the
      head ticket is unpublished: not claimed at all, or claimed but not yet stored. */
  lemma EmptyIsTruthful<T>(s: State<T>, t: nat)
    requires Inv(s) && t < |s.locals| && s.locals[t].PopSeq?
    ensures PopReportsEmpty(s, t) <==>
      s.locals[t].pos == s.head && (s.head == s.tail || Claimed(s, s.head))
  {
    assert LocalOk(s, t);
    SeqNotBehind(s, s.locals[t].pos);
    DistinctSlots(s);
    assert SlotOk(s, s.tail - s.capacity);
    if s.head < s.tail {
      OnePhase(s, s.head);
    }
  }

  predicate InPush<T>(l: Local<T>) {
    l.PushLoad? || l.PushSeq? || l.PushCas? || l.PushWrite? || l.PushPublish?
  }

  predicate InPop<T>(l: Local<T>) {
    l.PopLoad? || l.PopSeq? || l.PopCas? || l.PopTake? || l.PopRelease?
  }

  /** A step of `push` ends the call exactly when it publishes the item, or finds at the tail that the
      ticket one lap behind has not released the slot; in every other step the thread is still pushing
      the same item. */
  lemma PushReturnsIff<T>(s: State<T>, t: nat, ok: bool)
    requires Inv(s) && t < |s.locals| && InPush(s.locals[t])
    ensures var l, l' := s.locals[t], Step(s, Event(t, Advance(ok))).locals[t];
      && (l'.Idle? <==>
           l.PushPublish? || (l.PushSeq? && l.pos == s.tail && s.tail >= s.capacity && !Free(s, s.tail - s.capacity)))
      && (!l'.Idle? ==> InPush(l') && l'.item == l.item)
  {
    if s.locals[t].PushSeq? {
      FullIsTruthful(s, t);
    }
  }

  /** A step of `pop` ends the call exactly when it releases the slot, or finds at the head that the
      ticket is not published; in every other step the thread is still popping. */
  lemma PopReturnsIff<T>(s: State<T>, t: nat, ok: bool)
    requires Inv(s) && t < |s.locals| && InPop(s.locals[t])
    ensures var l, s' := s.locals[t], Step(s, Event(t, Advance(ok)));
      && (s'.locals[t].Idle? <==>
           l.PopRelease? || (l.PopSeq? && l.pos == s.head && (s.head == s.tail || Claimed(s, s.head))))
      && (!s'.locals[t].Idle? ==> InPop(s'.locals[t]))
      && (l.PopRelease? ==> l.pos < |s.pushed| && l.pos in s'.returned && s'.returned[l.pos] == s.pushed[l.pos])
  {
    assert LocalOk(s, t);
    if s.locals[t].PopSeq? {
      EmptyIsTruthful(s, t);
    }
    StepKeeps(s, Event(t, Advance(ok)));
    assert LocalOk(Step(s, Event(t, Advance(ok))), t);
  }

  /** A call begins only in an idle thread, with the item given. */
  lemma Starts<T>(s: State<T>, t: nat, item: T)
    requires WellFormed(s) && t < |s.locals|
    ensures var l' := Step(s, Event(t, StartPush(item))).locals[t];
      if s.locals[t].Idle? then InPush(l') && l'.item == item else l' == s.locals[t]
    ensures var l' := Step(s, Event(t, StartPop)).locals[t];
      if s.locals[t].Idle? then InPop(l') else l' == s.locals[t]
  {
  }

  /** When `push` reports full, the queue nevertheless has room exactly when a pop has claimed the item
      one lap behind and not yet released its slot. */
  lemma FullWithRoomIff<T>(s: State<T>, t: nat)
    requires Inv(s) && t < |s.locals| && PushReportsFull(s, t)
    ensures |Contents(s)| < s.capacity <==> Consuming(s, s.tail - s.capacity)
  {
    FullIsTruthful(s, t);
    OnePhase(s, s.tail - s.capacity);
  }

  /** When `pop` reports empty, the queue nevertheless holds items exactly when a push has claimed the
      front ticket and not yet published it. */
  lemma EmptyWithItemsIff<T>(s: State<T>, t: nat)
    requires Inv(s) && t < |s.locals| && PopReportsEmpty(s, t)
    ensures Contents(s) != [] <==> s.head < s.tail && Claimed(s, s.head)
  {
    EmptyIsTruthful(s, t);
  }

  /** A retry that is not a spurious compare-exchange failure is paid for by another thread:
      the counter has moved past the ticket the thread was trying for. */
  lemma RetryMeansProgress<T>(s: State<T>, t: nat)
    requires Inv(s) && t < |s.locals|
    ensures s.locals[t].PushSeq? && s.seqs[Slot(s, s.locals[t].pos)] > s.locals[t].pos ==>
      s.locals[t].pos < s.tail
    ensures s.locals[t].PopSeq? && s.seqs[Slot(s, s.locals[t].pos)] > s.locals[t].pos + 1 ==>
      s.locals[t].pos < s.head
    ensures s.locals[t].PushCas? && s.locals[t].pos != s.tail ==> s.locals[t].pos < s.tail
    ensures s.locals[t].PopCas? && s.locals[t].pos != s.head ==> s.locals[t].pos < s.head
  {
    assert LocalOk(s, t);
    if s.locals[t].PushSeq? || s.locals[t].PopSeq? {
      SeqNotBehind(s, s.locals[t].pos);
    }
  }

  /** How many steps a thread needs at most when it runs alone. */
  function Rank<T>(s: State<T>, t: nat): (n: nat)
    requires t < |s.locals|
    ensures n <= 6
  {
    match s.locals[t]
    case Idle => 0
    case PushLoad(_) => 5
    case PushSeq(_, pos) => if pos == s.tail then 4 else 6
    case PushCas(_, pos) => if pos == s.tail then 3 else 5
    case PushWrite(_, _) => 2
    case PushPublish(_, _) => 1
    case PopLoad => 5
    case PopSeq(pos) => if pos == s.head then 4 else 6
    case PopCas(pos) => if pos == s.head then 3 else 5
    case PopTake(_) => 2
    case PopRelease(_, _) => 1
    case Faulted => 0
  }

  lemma SoloStep<T>(s: State<T>, t: nat)
    requires Inv(s) && t < |s.locals| && !s.locals[t].Idle?
    ensures Rank(Step(s, Event(t, Advance(true))), t) < Rank(s, t)
  {
    assert LocalOk(s, t);
    if s.locals[t].PushSeq? || s.locals[t].PopSeq? {
      SeqNotBehind(s, s.locals[t].pos);
    }
  }

  function Alone<T>(t: nat, n: nat): seq<Event<T>> {
    seq(n, _ => Event(t, Advance(true)))
  }

  lemma {:induction false} AloneReturns<T>(s: State<T>, t: nat, n: nat)
    requires Inv(s) && t < |s.locals| && Rank(s, t) <= n
    ensures Run(s, Alone(t, n)).locals[t].Idle?
    decreases n
  {
    assert LocalOk(s, t);
    if n > 0 {
      var e := Event<T>.Event(t, Advance(true));
      if !s.locals[t].Idle? {
        SoloStep(s, t);
      }
      StepKeeps(s, e);
      assert Alone<T>(t, n)[1..] == Alone<T>(t, n - 1);
      AloneReturns(Step(s, e), t, n - 1);
    }
  }

  /** Wherever the other threads have stopped, a push or pop that runs alone returns within six steps
      if its exchanges do not fail spuriously: nobody waits for a thread that was descheduled. */
  lemma SoloTermination<T>(s: State<T>, t: nat)
    requires Inv(s) && t < |s.locals|
    ensures Run(s, Alone(t, 6)).locals[t].Idle?
  {
    AloneReturns(s, t, 6);
  }

  predicate Quiet<T>(s: State<T>, t: nat)
    requires t < |s.locals|
  {
    forall u :: 0 <= u < |s.locals| && u != t ==> s.locals[u].Idle?
  }

  /** With no other operation in flight the two failure answers mean exactly full and empty. */
  lemma QuietAnswers<T>(s: State<T>, t: nat)
    requires Inv(s) && t < |s.locals| && Quiet(s, t)
    ensures s.locals[t].PushSeq? && s.locals[t].pos == s.tail ==>
      (PushReportsFull(s, t) <==> s.tail - s.head == s.capacity)
    ensures s.locals[t].PopSeq? && s.locals[t].pos == s.head ==>
      (PopReportsEmpty(s, t) <==> s.tail == s.head)
  {
    OnePhase(s, s.tail - s.capacity);
    if s.locals[t].PushSeq? {
      FullIsTruthful(s, t);
    } else if s.locals[t].PopSeq? {
      EmptyIsTruthful(s, t);
    }
  }

  /** When every operation has returned, the items handed back are exactly the first `head` pushed,
      and the rest sit in their slots in order. */
  lemma QuiescentConservation<T>(s: State<T>)
    requires Inv(s) && forall u :: 0 <= u < |s.locals| ==> s.locals[u].Idle?
    ensures forall p :: p in s.returned <==> 0 <= p < s.head
    ensures forall p :: 0 <= p < s.head ==> s.returned[p] == s.pushed[p]
    ensures forall p :: s.head <= p < s.tail ==> s.data[Slot(s, p)] == Some(s.pushed[p])
  {
    forall p | 0 <= p < s.tail
      ensures p in s.returned <==> p < s.head
      ensures p >= s.head ==> s.data[Slot(s, p)] == Some(s.pushed[p])
    {
      if p >= s.tail - s.capacity {
        assert SlotOk(s, p);
      }
    }
  }

  // --------------------------------------------------------------- capacity one

  function Pushing<T>(item: T): seq<Event<T>> {
    [Event(0, StartPush(item)), Event(0, Advance(true)), Event(0, Advance(true)), Event(0, Advance(true)),
     Event(0, Advance(true)), Event(0, Advance(true))]
  }

  lemma {:induction false} RunConcat<T>(s: State<T>, a: seq<Event<T>>, b: seq<Event<T>>)
    requires WellFormed(s)
    ensures Run(s, a + b) == Run(Run(s, a), b)
    decreases |a|
  {
    if a == [] {
      assert a + b == b;
    } else {
      assert (a + b)[1..] == a[1..] + b;
      RunConcat(Step(s, a[0]), a[1..], b);
    }
  }

  /** With one slot, "published for ticket p" and "free for ticket p + 1" are the same number, so a
      second push succeeds and destroys the first item. */
  lemma CapacityOneOverwrites<T>(a: T, b: T)
    ensures var s := Run(Init<T>(1, 1), Pushing(a) + Pushing(b));
      s.pushed == [a, b] && s.head == 0 && s.tail == 2 && s.data == [Some(b)] && s.seqs == [2] && s.locals == [Idle]
  {
    var s0 := Init<T>(1, 1);
    RunConcat(s0, Pushing(a), Pushing(b));
    var s1 := OnePush(s0, a);
    var s2 := OnePush(s1, b);
  }

  lemma OnePush<T>(s: State<T>, a: T) returns (r: State<T>)
    requires WellFormed(s) && s.capacity == 1 && s.locals == [Idle] && s.seqs == [s.tail]
    ensures r == Run(s, Pushing(a))
    ensures r == s.(tail := s.tail + 1, seqs := [s.tail + 1], data := [Some(a)],
                    pushed := s.pushed + [a], pushedBy := s.pushedBy + [0])
  {
    var es := Pushing(a);
    var s1 := Step(s, es[0]);
    var s2 := Step(s1, es[1]);
    var s3 := Step(s2, es[2]);
    var s4 := Step(s3, es[3]);
    var s5 := Step(s4, es[4]);
    r := Step(s5, es[5]);
    assert es[1..][1..][1..][1..][1..][1..] == [];
    assert Run(s5, es[1..][1..][1..][1..][1..]) == r;
    assert Run(s4, es[1..][1..][1..][1..]) == r;
    assert Run(s3, es[1..][1..][1..]) == r;
    assert Run(s2, es[1..][1..]) == r;
    assert Run(s1, es[1..]) == r;
  }

  /** The queue keeps within its capacity on all runs exactly when it has at least two slots. */
  lemma BoundedIffTwoSlots(capacity: nat)
    requires capacity >= 1
    ensures (forall threads: nat, events: seq<Event<int>> ::
               var s := Run(Init<int>(capacity, threads), events); s.tail <= s.head + capacity)
            <==> capacity >= 2
  {
    if capacity >= 2 {
      forall threads: nat, events: seq<Event<int>>
        ensures var s := Run(Init<int>(capacity, threads), events); s.tail <= s.head + capacity
      {
        Safety<int>(capacity, threads, events);
      }
    } else {
      CapacityOneOverwrites(0, 1);
    }
  }
}
