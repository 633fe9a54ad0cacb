/** `LockFreeQueue` used by one thread at a time: the slot array, the two counters and the retry
    loops, proved to be a bounded FIFO sequence across any number of laps around the array. */
module LockFreeQueue {
  import opened Wrappers
  import opened ModularTickets

  class Queue<T> {
    const capacity: nat
    const seqs: array<nat>
    const storage: array<Option<T>>
    var head: nat
    var tail: nat

    /** The items in the queue, front first. */
    ghost var contents: seq<T>

    /** Ticket p of the window [tail - capacity, tail): live in [head, tail), released below head. */
    ghost predicate SlotOk(p: int)
      requires capacity >= 1 && seqs.Length == capacity && storage.Length == capacity
      requires p < tail == head + |contents|
      reads this, seqs, storage
    {
      if p < head then seqs[p % capacity] == p + capacity && storage[p % capacity] == None
      else seqs[p % capacity] == p + 1 && storage[p % capacity] == Some(contents[p - head])
    }

    ghost predicate Valid()
      reads this, seqs, storage
    {
      && capacity >= 2 && seqs.Length == capacity && storage.Length == capacity
      && tail == head + |contents| && |contents| <= capacity
      && forall p :: tail - capacity <= p < tail ==> SlotOk(p)
    }

    /** Any capacity can be constructed; from two slots on, the result is an empty bounded queue. */
    constructor (capacity: nat)
      ensures capacity >= 2 ==> Valid()
      ensures contents == [] && head == tail == 0 && this.capacity == capacity
      ensures seqs.Length == capacity && forall i :: 0 <= i < capacity ==> seqs[i] == i
      ensures storage.Length == capacity && forall i :: 0 <= i < capacity ==> storage[i].None?
      ensures fresh(seqs) && fresh(storage)
    {
      this.capacity := capacity;
      var numbers := new nat[capacity];
      for i := 0 to capacity
        invariant forall j :: 0 <= j < i ==> numbers[j] == j
      {
        numbers[i] := i;
      }
      seqs := numbers;
      storage := new Option<T>[capacity](_ => None);
      head, tail, contents := 0, 0, [];
      new;
      forall p | tail - capacity <= p < tail && capacity >= 1 ensures SlotOk(p) {
        BeforeFirst(p, capacity);
        assert seqs[p + capacity] == p + capacity;
      }
    }

    lemma Slots()
      requires Valid()
      ensures forall p, q :: tail - capacity <= p < q < tail ==> p % capacity != q % capacity
      ensures tail % capacity == (tail - capacity) % capacity
      ensures head == tail ==> head % capacity == (tail - capacity) % capacity
    {
      forall p, q | tail - capacity <= p < q < tail ensures p % capacity != q % capacity {
        if p % capacity == q % capacity {
          SameSlotSameTicket(p, q, capacity);
          assert false;
        }
      }
      Laps(tail, -1, capacity);
    }

    /** `spurious` bounds how often the weak compare-exchange fails without interference. A sequence
        number ahead of the ticket, which makes the loop reload, needs another thread. */
    method Push(item: T, spurious: nat) returns (ok: bool)
      requires Valid()
      modifies this, seqs, storage
      ensures Valid()
      ensures ok <==> |old(contents)| < capacity
      ensures contents == if ok then old(contents) + [item] else old(contents)
    {
      var failures := spurious;
      var pos := tail;
      Slots();
      assert SlotOk(tail - capacity);
      while true
        invariant pos == tail && unchanged(this) && unchanged(seqs) && unchanged(storage)
        decreases failures
      {
        var i := pos % capacity;
        var diff := seqs[i] - pos;
        if diff == 0 {
          if failures == 0 {
            tail, contents := pos + 1, contents + [item];
            storage[i] := Some(item);
            seqs[i] := pos + 1;
            assert forall p :: tail - capacity <= p < tail - 1 ==> p % capacity != i && old(SlotOk(p));
            assert SlotOk(pos);
            return true;
          }
          failures := failures - 1;
        } else {
          assert diff < 0;
          return false;
        }
      }
    }

    method Pop(spurious: nat) returns (item: Option<T>)
      requires Valid()
      modifies this, seqs, storage
      ensures Valid()
      ensures item.None? <==> old(contents) == []
      ensures item.None? ==> contents == old(contents)
      ensures item.Some? ==> [item.value] + contents == old(contents)
    {
      var failures := spurious;
      var pos := head;
      Slots();
      assert SlotOk(tail - capacity);
      assert head < tail ==> SlotOk(head);
      while true
        invariant pos == head && unchanged(this) && unchanged(seqs) && unchanged(storage)
        decreases failures
      {
        var i := pos % capacity;
        var diff := seqs[i] - (pos + 1);
        if diff == 0 {
          if failures == 0 {
            head, contents := pos + 1, contents[1..];
            item := storage[i];
            storage[i] := None;
            seqs[i] := pos + capacity;
            assert forall p :: tail - capacity <= p < tail && p != pos ==> p % capacity != i && old(SlotOk(p));
            assert SlotOk(pos);
            return;
          }
          failures := failures - 1;
        } else {
          assert diff < 0;
          return None;
        }
      }
    }

    method Empty() returns (b: bool)
      requires Valid()
      ensures b <==> contents == []
    {
      Slots();
      assert SlotOk(tail - capacity);
      assert head < tail ==> SlotOk(head);
      b := seqs[head % capacity] - (head + 1) < 0;
    }

    method Full() returns (b: bool)
      requires Valid()
      ensures b <==> |contents| == capacity
    {
      Slots();
      assert SlotOk(tail - capacity);
      b := seqs[tail % capacity] - tail < 0;
    }

    method Size() returns (n: nat)
      requires Valid()
      ensures n == |contents|
    {
      n := if tail > head then tail - head else 0;
    }

    lemma EmptySlots()
      requires Valid() && contents == []
      ensures forall i :: 0 <= i < capacity ==> storage[i].None?
    {
      forall i | 0 <= i < capacity ensures storage[i].None? {
        var p := Current(i, tail, capacity);
        RemainderUnique(i, capacity, 0, i);
        assert SlotOk(p);
      }
    }

    /** The destructor's drain: it terminates and leaves no live object in any slot. */
    method Drain() returns (ghost dropped: seq<T>)
      requires Valid()
      modifies this, seqs, storage
      ensures Valid() && contents == []
      ensures dropped == old(contents)
      ensures forall i :: 0 <= i < capacity ==> storage[i].None?
    {
      dropped := [];
      var more := true;
      while more
        invariant Valid()
        invariant dropped + contents == old(contents)
        invariant !more ==> contents == []
        decreases more, |contents|
      {
        var item := Pop(0);
        more := item.Some?;
        if more {
          dropped := dropped + [item.value];
        }
      }
      EmptySlots();
    }
  }
}
