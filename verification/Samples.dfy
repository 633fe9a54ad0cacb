/** The inputs of a histogram: `add(value, count)` calls, the values they stand for, and the running
    minimum and maximum that both histogram kinds keep. */
module Samples {
  import opened Wrappers
  import opened OrderStatistics

  datatype Add = Add(value: real, count: nat)

  function Weight(a: Add): real {
    a.value * (a.count as real)
  }

  /** Every value, repeated as often as it was added. */
  function Expand(h: seq<Add>): seq<real> {
    if h == [] then [] else Repeat(h[0].value, h[0].count) + Expand(h[1..])
  }

  lemma {:induction false} ExpandAppend(g: seq<Add>, h: seq<Add>)
    ensures Expand(g + h) == Expand(g) + Expand(h)
  {
    if g == [] {
      assert g + h == h;
    } else {
      assert (g + h)[1..] == g[1..] + h;
      ExpandAppend(g[1..], h);
    }
  }

  lemma ExpandLast(h: seq<Add>)
    requires h != []
    ensures Expand(h) == Expand(h[..|h| - 1]) + Repeat(h[|h| - 1].value, h[|h| - 1].count)
  {
    var last := [h[|h| - 1]];
    assert h == h[..|h| - 1] + last;
    ExpandAppend(h[..|h| - 1], last);
    assert last[1..] == [];
    assert Expand(last) == Repeat(last[0].value, last[0].count);
  }

  /** Every expanded value comes from an add call with a positive count. */
  lemma {:induction false} ExpandMember(h: seq<Add>, i: nat) returns (j: nat)
    requires i < |Expand(h)|
    ensures j < |h| && h[j].value == Expand(h)[i] && h[j].count > 0
    decreases |h|
  {
    if i < h[0].count {
      j := 0;
    } else {
      j := ExpandMember(h[1..], i - h[0].count);
      j := j + 1;
    }
  }

  function Lower(a: Option<real>, b: Option<real>): Option<real> {
    if a.None? || (b.Some? && b.value < a.value) then b else a
  }

  function Higher(a: Option<real>, b: Option<real>): Option<real> {
    if a.None? || (b.Some? && b.value > a.value) then b else a
  }
}
