/** What the running sums of both histogram kinds add up to. */
module Sums {
  import opened RealArithmetic
  import opened RealPower
  import opened OrderStatistics
  import opened Samples
  import DDSketch
  import DDQuantile
  import FixedBucket
  import FixedQuantile

  function SumOf(s: seq<real>): real {
    if s == [] then 0.0 else s[0] + SumOf(s[1..])
  }

  /** The sum of the elements in the half-open interval [lo, hi). */
  function SumIn(s: seq<real>, lo: real, hi: real): real {
    if s == [] then 0.0 else (if lo <= s[0] < hi then s[0] else 0.0) + SumIn(s[1..], lo, hi)
  }

  /** The sum of the elements whose index is k. */
  function SumAt(f: real -> int, s: seq<real>, k: int): real {
    if s == [] then 0.0 else (if f(s[0]) == k then s[0] else 0.0) + SumAt(f, s[1..], k)
  }

  lemma {:induction false} SumOfAppend(a: seq<real>, b: seq<real>)
    ensures SumOf(a + b) == SumOf(a) + SumOf(b)
  {
    if a == [] {
      assert a + b == b;
    } else {
      assert (a + b)[1..] == a[1..] + b;
      SumOfAppend(a[1..], b);
    }
  }

  lemma {:induction false} SumAtAppend(f: real -> int, a: seq<real>, b: seq<real>, k: int)
    ensures SumAt(f, a + b, k) == SumAt(f, a, k) + SumAt(f, b, k)
  {
    if a == [] {
      assert a + b == b;
    } else {
      assert (a + b)[1..] == a[1..] + b;
      SumAtAppend(f, a[1..], b, k);
    }
  }

  lemma OneMore(v: real, n: nat)
    requires n > 0
    ensures v * (n as real) == v + v * ((n - 1) as real)
  {
  }

  lemma {:induction false} SumOfRepeat(v: real, n: nat)
    ensures SumOf(Repeat(v, n)) == v * (n as real)
  {
    if n > 0 {
      assert Repeat(v, n)[1..] == Repeat(v, n - 1);
      SumOfRepeat(v, n - 1);
      OneMore(v, n);
    }
  }

  lemma {:induction false} SumAtRepeat(f: real -> int, v: real, n: nat, k: int)
    ensures SumAt(f, Repeat(v, n), k) == if f(v) == k then SumOf(Repeat(v, n)) else 0.0
  {
    if n > 0 {
      assert Repeat(v, n)[1..] == Repeat(v, n - 1);
      SumAtRepeat(f, v, n - 1, k);
    }
  }

  lemma {:induction false} SumInInterval(f: real -> int, s: seq<real>, k: int, lo: real, hi: real)
    requires forall i :: 0 <= i < |s| ==> (f(s[i]) == k <==> lo <= s[i] < hi)
    ensures SumAt(f, s, k) == SumIn(s, lo, hi)
  {
    if s != [] {
      assert f(s[0]) == k <==> lo <= s[0] < hi;
      SumInInterval(f, s[1..], k, lo, hi);
    }
  }

  lemma RepeatWeight(a: Add, w: real)
    requires w == Weight(a)
    ensures SumOf(Repeat(a.value, a.count)) == w
  {
    SumOfRepeat(a.value, a.count);
  }

  lemma SumSplit(all: seq<real>, front: seq<real>, last: seq<real>, w: real)
    requires all == front + last && SumOf(last) == w
    ensures SumOf(all) == SumOf(front) + w
  {
    SumOfAppend(front, last);
  }

  lemma ExpandSum(h: seq<Add>, all: seq<real>, front: seq<real>, w: real)
    requires h != [] && w == Weight(h[|h| - 1]) && all == Expand(h) && front == Expand(h[..|h| - 1])
    ensures SumOf(all) == SumOf(front) + w
  {
    var last := Repeat(h[|h| - 1].value, h[|h| - 1].count);
    assert all == front + last by { ExpandLast(h); }
    assert SumOf(last) == w by { RepeatWeight(h[|h| - 1], w); }
    SumSplit(all, front, last, w);
  }

  lemma SumAtSplit(f: real -> int, all: seq<real>, front: seq<real>, v: real, n: nat, k: int, w: real)
    requires all == front + Repeat(v, n) && SumOf(Repeat(v, n)) == w
    ensures SumAt(f, all, k) == SumAt(f, front, k) + if f(v) == k then w else 0.0
  {
    SumAtAppend(f, front, Repeat(v, n), k);
    SumAtRepeat(f, v, n, k);
  }

  lemma ExpandSumAt(f: real -> int, h: seq<Add>, all: seq<real>, front: seq<real>, k: int, w: real)
    requires h != [] && w == Weight(h[|h| - 1]) && all == Expand(h) && front == Expand(h[..|h| - 1])
    ensures SumAt(f, all, k) == SumAt(f, front, k) + if f(h[|h| - 1].value) == k then w else 0.0
  {
    var a := h[|h| - 1];
    assert all == front + Repeat(a.value, a.count) by { ExpandLast(h); }
    assert SumOf(Repeat(a.value, a.count)) == w by { RepeatWeight(a, w); }
    SumAtSplit(f, all, front, a.value, a.count, k, w);
  }

  // ---------------------------------------------------------------------------- DDSketch

  lemma {:induction false} BuildTotalSum(index: DDSketch.Index, h: seq<Add>)
    ensures DDSketch.Build(index, h).totalSum == SumOf(Expand(h))
    decreases |h|
  {
    if h != [] {
      var front, a := h[..|h| - 1], h[|h| - 1];
      BuildTotalSum(index, front);
      ExpandSum(h, Expand(h), Expand(front), Weight(a));
    }
  }

  lemma AddedSums(s: DDSketch.Tally, i: int, a: Add, k: int)
    ensures DDSketch.SumAt(DDSketch.AddedAt(s, i, a).sums, k)
         == DDSketch.SumAt(s.sums, k) + if k == i then Weight(a) else 0.0
  {
  }

  lemma {:induction false} BuildBucketSum(index: DDSketch.Index, h: seq<Add>, k: int)
    ensures DDSketch.SumAt(DDSketch.Build(index, h).sums, k) == SumAt(index, Expand(h), k)
    decreases |h|
  {
    if h != [] {
      var front, a := h[..|h| - 1], h[|h| - 1];
      BuildBucketSum(index, front, k);
      ExpandSumAt(index, h, Expand(h), Expand(front), k, Weight(a));
      AddedSums(DDSketch.Build(index, front), index(a.value), a, k);
    }
  }

  /** The total sum is the sum of all added values, each as often as it was added. */
  lemma TotalSumMeaning(alpha: real, h: seq<Add>)
    ensures DDQuantile.Sketch(alpha, h).totalSum == SumOf(Expand(h))
  {
    BuildTotalSum(v => DDQuantile.IndexOf(alpha, v), h);
  }

  /** Each bucket's sum is the sum of the added values in its interval. */
  lemma BucketSumMeaning(alpha: real, h: seq<Add>, k: int)
    requires alpha > 0.0 && DDQuantile.Positive(h)
    ensures DDSketch.SumAt(DDQuantile.Sketch(alpha, h).sums, k)
         == SumIn(Expand(h), Pow(1.0 + alpha, k), Pow(1.0 + alpha, k + 1))
  {
    var f := (v: real) => DDQuantile.IndexOf(alpha, v);
    var e, lo, hi := Expand(h), Pow(1.0 + alpha, k), Pow(1.0 + alpha, k + 1);
    DDQuantile.ExpandPositive(h);
    forall i | 0 <= i < |e| ensures f(e[i]) == k <==> lo <= e[i] < hi {
      assert e[i] in e;
      BucketIndexUnique(alpha, e[i], k);
    }
    SumInInterval(f, e, k, lo, hi);
    BuildBucketSum(f, h, k);
  }

  // ---------------------------------------------------------------------- fixed buckets

  lemma {:induction false} BuildFixedSum(n: nat, index: FixedBucket.Index, h: seq<Add>)
    ensures FixedBucket.Build(n, index, h).sum == SumOf(Expand(h))
    decreases |h|
  {
    if h != [] {
      var front, a := h[..|h| - 1], h[|h| - 1];
      BuildFixedSum(n, index, front);
      ExpandSum(h, Expand(h), Expand(front), Weight(a));
    }
  }

  /** The sum is the sum of all added values, each as often as it was added. */
  lemma FixedSumMeaning(bounds: seq<real>, h: seq<Add>)
    ensures FixedQuantile.Histogram(bounds, h).sum == SumOf(Expand(h))
  {
    BuildFixedSum(|bounds| + 1, v => FixedQuantile.Position(bounds, v), h);
  }
}
