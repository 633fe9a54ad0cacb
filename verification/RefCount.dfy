/** `AtomicRefCounted` as a transition system. Threads add references to, pass on and release only
    references they hold. The atomic steps are fetch_add, fetch_sub, and the load and weak
    compare-exchange of the peak statistic. */
module RefCount {

  datatype Local =
    | Idle
    | PeakLoad(count: int)             // in addRef after fetch_add, about to load peak_ref_count
    | PeakCas(count: int, seen: int)   // count > seen, about to compare-exchange

  datatype State = State(
    tracking: bool, count: int, peak: int,
    held: seq<nat>, locals: seq<Local>,
    destroyed: nat,            // how many releases saw zero and deleted the object
    added: nat, released: nat, // history: completed fetch_add and fetch_sub operations
    highest: int)              // history: the largest count ever produced

  datatype Event = AddRef(thread: nat) | Advance(thread: nat, casSucceeds: bool) | Release(thread: nat) | Pass(from: nat, to: nat)

  /** A new object: thread 0 holds its only reference. */
  function Init(tracking: bool, others: nat): State {
    State(tracking, 1, if tracking then 1 else 0, [1] + seq(others, _ => 0), seq(others + 1, _ => Idle), 0, 0, 0, 1)
  }

  predicate WellFormed(s: State) {
    |s.held| == |s.locals|
  }

  /** Thread t is between operations and holds a reference. */
  predicate Holds(s: State, t: nat)
    requires WellFormed(s)
  {
    t < |s.held| && s.locals[t].Idle? && s.held[t] > 0
  }

  /** The loop test of update_peak_ref_count with a freshly read peak. */
  function Compare(count: int, seen: int): Local {
    if count > seen then PeakCas(count, seen) else Idle
  }

  function Step(s: State, e: Event): State
    requires WellFormed(s)
  {
    match e
    case AddRef(t) =>
      if !Holds(s, t) then s
      else
        var n := s.count + 1;
        s.(count := n, held := s.held[t := s.held[t] + 1], added := s.added + 1,
           highest := if n > s.highest then n else s.highest,
           locals := if s.tracking then s.locals[t := PeakLoad(n)] else s.locals)
    case Advance(t, ok) =>
      if t >= |s.locals| then s
      else (
        match s.locals[t]
        case Idle => s
        case PeakLoad(n) => s.(locals := s.locals[t := Compare(n, s.peak)])
        case PeakCas(n, seen) =>
          if s.peak == seen && ok then s.(peak := n, locals := s.locals[t := Idle])
          else s.(locals := s.locals[t := Compare(n, s.peak)]))
    case Release(t) =>
      if !Holds(s, t) then s
      else s.(count := s.count - 1, held := s.held[t := s.held[t] - 1], released := s.released + 1,
              destroyed := if s.count - 1 == 0 then s.destroyed + 1 else s.destroyed)
    case Pass(t, u) =>
      if !Holds(s, t) || u >= |s.held| || u == t then s
      else s.(held := s.held[t := s.held[t] - 1][u := s.held[u] + 1])
  }

  function Run(s: State, events: seq<Event>): (r: State)
    requires WellFormed(s)
    ensures WellFormed(r)
    decreases |events|
  {
    if events == [] then s else Run(Step(s, events[0]), events[1..])
  }

  function Sum(q: seq<nat>): nat {
    if q == [] then 0 else q[0] + Sum(q[1..])
  }

  lemma {:induction false} SumUpdate(q: seq<nat>, i: nat, v: nat)
    requires i < |q|
    ensures Sum(q[i := v]) == Sum(q) - q[i] + v
  {
    if i > 0 {
      SumUpdate(q[1..], i - 1, v);
      assert q[i := v][1..] == q[1..][i - 1 := v];
    } else {
      assert q[i := v][1..] == q[1..];
    }
  }

  lemma {:induction false} SumZeros(q: seq<nat>)
    ensures Sum(q) == 0 <==> forall i :: 0 <= i < |q| ==> q[i] == 0
  {
    if q != [] {
      SumZeros(q[1..]);
      assert forall i :: 1 <= i < |q| ==> q[i] == q[1..][i - 1];
    }
  }

  lemma SumAtLeast(q: seq<nat>, i: nat)
    requires i < |q|
    ensures Sum(q) >= q[i]
  {
    SumUpdate(q, i, 0);
  }

  // ------------------------------------------------------------------- invariant

  ghost predicate CountOk(s: State)
    requires WellFormed(s)
  {
    && s.count == Sum(s.held)
    && s.count == 1 + s.added - s.released
    && s.destroyed == (if s.count == 0 then 1 else 0)
    && (forall t :: 0 <= t < |s.locals| && !s.locals[t].Idle? ==> s.held[t] > 0)
  }

  ghost predicate PendingPeak(s: State) {
    exists t :: 0 <= t < |s.locals| && !s.locals[t].Idle? && s.locals[t].count == s.highest
  }

  ghost predicate PeakOk(s: State)
    requires WellFormed(s)
  {
    && s.peak <= s.highest && s.count <= s.highest
    && (forall t :: 0 <= t < |s.locals| && !s.locals[t].Idle? ==> s.locals[t].count <= s.highest)
    && (forall t :: 0 <= t < |s.locals| && s.locals[t].PeakCas? ==> s.locals[t].count > s.locals[t].seen)
    && (s.tracking ==> s.peak == s.highest || PendingPeak(s))
  }

  ghost predicate Inv(s: State) {
    WellFormed(s) && CountOk(s) && PeakOk(s)
  }

  lemma {:induction false} SumAllZero(n: nat)
    ensures Sum(seq(n, _ => 0)) == 0
  {
    SumZeros(seq(n, _ => 0));
  }

  lemma InitInv(tracking: bool, others: nat)
    ensures Inv(Init(tracking, others))
  {
    var s := Init(tracking, others);
    assert s.held[1..] == seq(others, _ => 0);
    SumAllZero(others);
  }

  lemma AddRefKeeps(s: State, t: nat)
    requires Inv(s) && Holds(s, t)
    ensures Inv(Step(s, AddRef(t)))
  {
    var s' := Step(s, AddRef(t));
    SumUpdate(s.held, t, s.held[t] + 1);
    SumAtLeast(s.held, t);
    if s.tracking {
      assert s'.locals[t] == PeakLoad(s'.count);
      if s'.highest == s.highest && s.peak != s.highest {
        var u :| 0 <= u < |s.locals| && !s.locals[u].Idle? && s.locals[u].count == s.highest;
        assert s'.locals[u] == s.locals[u];
      }
    }
  }

  lemma AdvanceKeeps(s: State, t: nat, ok: bool)
    requires Inv(s) && t < |s.locals|
    ensures Inv(Step(s, Advance(t, ok)))
  {
    var s' := Step(s, Advance(t, ok));
    if s.tracking && s.peak != s.highest {
      var u :| 0 <= u < |s.locals| && !s.locals[u].Idle? && s.locals[u].count == s.highest;
      assert u != t ==> s'.locals[u] == s.locals[u];
      assert u == t ==> s'.peak == s'.highest || (!s'.locals[t].Idle? && s'.locals[t].count == s'.highest);
    }
  }

  lemma ReleaseKeeps(s: State, t: nat)
    requires Inv(s) && Holds(s, t)
    ensures Inv(Step(s, Release(t)))
  {
    var s' := Step(s, Release(t));
    SumUpdate(s.held, t, s.held[t] - 1);
    SumAtLeast(s.held, t);
    if s.tracking && s.peak != s.highest {
      var u :| 0 <= u < |s.locals| && !s.locals[u].Idle? && s.locals[u].count == s.highest;
      assert s'.locals[u] == s.locals[u];
    }
  }

  lemma PassKeeps(s: State, t: nat, u: nat)
    requires Inv(s) && Holds(s, t) && u < |s.held| && u != t
    ensures Inv(Step(s, Pass(t, u)))
  {
    var s' := Step(s, Pass(t, u));
    SumUpdate(s.held, t, s.held[t] - 1);
    SumUpdate(s.held[t := s.held[t] - 1], u, s.held[u] + 1);
    if s.tracking && s.peak != s.highest {
      var w :| 0 <= w < |s.locals| && !s.locals[w].Idle? && s.locals[w].count == s.highest;
      assert s'.locals[w] == s.locals[w];
    }
  }

  lemma StepKeeps(s: State, e: Event)
    requires Inv(s)
    ensures Inv(Step(s, e))
  {
    match e
    case AddRef(t) => if Holds(s, t) { AddRefKeeps(s, t); }
    case Advance(t, ok) => if t < |s.locals| { AdvanceKeeps(s, t, ok); }
    case Release(t) => if Holds(s, t) { ReleaseKeeps(s, t); }
    case Pass(t, u) => if Holds(s, t) && u < |s.held| && u != t { PassKeeps(s, t, u); }
  }

  lemma {:induction false} RunKeeps(s: State, events: seq<Event>)
    requires Inv(s)
    ensures Inv(Run(s, events))
    decreases |events|
  {
    if events != [] {
      StepKeeps(s, events[0]);
      RunKeeps(Step(s, events[0]), events[1..]);
    }
  }

  // ------------------------------------------------------------------ main results

  /** In every run the object is deleted at most once, and it has been deleted exactly when every
      reference ever created has been released and nobody holds one. */
  lemma DestroyedExactlyOnce(tracking: bool, others: nat, events: seq<Event>)
    ensures var s := Run(Init(tracking, others), events);
      && s.destroyed <= 1
      && (s.destroyed == 1 <==> s.released == s.added + 1)
      && (s.destroyed == 1 <==> forall t :: 0 <= t < |s.held| ==> s.held[t] == 0)
  {
    InitInv(tracking, others);
    RunKeeps(Init(tracking, others), events);
    SumZeros(Run(Init(tracking, others), events).held);
  }

  /** The release that deletes the object is the last of all: it holds the only reference left, and
      no thread is inside an operation on the object. */
  lemma LastReleaseDeletes(s: State, t: nat)
    requires Inv(s) && Holds(s, t)
    ensures Step(s, Release(t)).destroyed > s.destroyed <==>
      s.held[t] == 1 && forall u :: 0 <= u < |s.held| && u != t ==> s.held[u] == 0
    ensures Step(s, Release(t)).destroyed > s.destroyed ==>
      forall u :: 0 <= u < |s.locals| ==> s.locals[u].Idle?
  {
    var rest := s.held[t := 0];
    SumUpdate(s.held, t, 0);
    SumAtLeast(s.held, t);
    SumZeros(rest);
    assert forall u :: 0 <= u < |rest| ==> rest[u] == if u == t then 0 else s.held[u];
  }

  /** Once deleted the object is never touched again. */
  lemma {:induction false} NothingAfterDeletion(s: State, events: seq<Event>)
    requires Inv(s) && s.destroyed > 0
    ensures Run(s, events) == s
    decreases |events|
  {
    if events != [] {
      SumZeros(s.held);
      assert Step(s, events[0]) == s;
      NothingAfterDeletion(s, events[1..]);
    }
  }

  /** `highest` is the largest value the counter takes anywhere in the run. */
  lemma {:induction false} HighestIsMaximum(s: State, events: seq<Event>) returns (k: nat)
    requires Inv(s) && s.highest == s.count
    ensures k <= |events| && Run(s, events[..k]).count == Run(s, events).highest
    ensures forall j :: 0 <= j <= |events| ==> Run(s, events[..j]).count <= Run(s, events).highest
    decreases |events|
  {
    var n := |events|;
    if n == 0 {
      k := 0;
      assert forall j :: 0 <= j <= n ==> events[..j] == events;
    } else {
      var init, last := events[..n - 1], events[n - 1];
      k := HighestIsMaximum(s, init);
      RunAppend(s, init, last);
      RunKeeps(s, init);
      assert init + [last] == events && events[..n] == events;
      assert forall j :: 0 <= j <= n - 1 ==> init[..j] == events[..j];
      var before, after := Run(s, init), Run(s, events);
      assert before.highest <= after.highest;
      assert after.highest == before.highest || after.highest == after.count;
      StepKeeps(before, last);
      if after.highest != before.highest {
        k := n;
      }
    }
  }

  lemma {:induction false} RunAppend(s: State, events: seq<Event>, e: Event)
    requires WellFormed(s)
    ensures Run(s, events + [e]) == Step(Run(s, events), e)
    decreases |events|
  {
    if events == [] {
      assert ([] + [e])[1..] == [];
      assert events + [e] == [e];
    } else {
      assert (events + [e])[1..] == events[1..] + [e];
      RunAppend(Step(s, events[0]), events[1..], e);
    }
  }

  /** With tracking on, once every addRef has returned, the recorded peak is exactly the largest value
      the counter had at any moment of the run; until then it never exceeds that value. */
  lemma PeakIsExact(tracking: bool, others: nat, events: seq<Event>) returns (k: nat)
    ensures k <= |events|
    ensures var start := Init(tracking, others);
      var s := Run(start, events);
      && s.peak <= Run(start, events[..k]).count
      && (tracking && (forall t :: 0 <= t < |s.locals| ==> s.locals[t].Idle?) ==>
           && s.peak == Run(start, events[..k]).count
           && forall j :: 0 <= j <= |events| ==> Run(start, events[..j]).count <= s.peak)
  {
    var start := Init(tracking, others);
    InitInv(tracking, others);
    RunKeeps(start, events);
    TrackingStays(start, events);
    k := HighestIsMaximum(start, events);
  }

  lemma {:induction false} TrackingStays(s: State, events: seq<Event>)
    requires WellFormed(s)
    ensures Run(s, events).tracking == s.tracking
    decreases |events|
  {
    if events != [] {
      TrackingStays(Step(s, events[0]), events[1..]);
    }
  }
}
