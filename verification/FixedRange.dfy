/** When fixed-bucket quantiles stay between the smallest and the largest value ever added. */
module FixedRange {
  import opened OrderStatistics
  import opened Samples
  import opened HistogramErrors
  import opened FixedBucket
  import opened FixedQuantile

  /** Bucket k is the last that counts anything. */
  ghost predicate LastCounted(s: Tally, k: nat) {
    k < |s.buckets| && s.buckets[k] > 0 && Cumulative(s.buckets, k + 1) == Cumulative(s.buckets, |s.buckets|)
  }

  lemma {:induction false} LastNonEmpty(buckets: seq<nat>, n: nat) returns (k: nat)
    requires n <= |buckets| && Cumulative(buckets, n) > 0
    ensures k < n && buckets[k] > 0 && Cumulative(buckets, k + 1) == Cumulative(buckets, n)
  {
    if buckets[n - 1] > 0 {
      k := n - 1;
    } else {
      k := LastNonEmpty(buckets, n - 1);
    }
  }

  lemma AllTotal(bounds: seq<real>, h: seq<Add>, s: Tally)
    requires s == Histogram(bounds, h)
    ensures Cumulative(s.buckets, |s.buckets|) == |Expand(h)|
  {
    HistogramFaithful(bounds, h);
    AllCounted(s.buckets, Indices(v => Position(bounds, v), h));
  }

  lemma StopAtLast(s: Tally, k: nat, target: real)
    requires LastCounted(s, k) && target == Cumulative(s.buckets, |s.buckets|) as real && Stops(s.buckets, target)
    ensures StopBucket(s.buckets, target) == k
  {
    var i := StopBucket(s.buckets, target);
    if i < k {
      CumulativeMonotone(s.buckets, i + 1, k);
      assert false;
    } else if i > k {
      CumulativeMonotone(s.buckets, k + 1, i);
      assert false;
    }
  }

  lemma WholeBucket(start: real, end: real, count: nat)
    requires count > 0
    ensures Interpolate(start, end, count as real, count) == end
  {
    assert count as real / count as real == 1.0;
  }

  /** The answer for the highest rank is the upper end of the last counted bucket. */
  lemma AnswerAtTop(bounds: seq<real>, h: seq<Add>, s: Tally, k: nat)
    requires SortedBounds(bounds) && s == Histogram(bounds, h) && |Expand(h)| >= 1 && LastCounted(s, k)
    ensures At(bounds, s, |Expand(h)| as real) == if k == 0 then Lowest(s) else UpperEnd(bounds, s, k)
  {
    var target := |Expand(h)| as real;
    AllTotal(bounds, h, s);
    assert Stops(s.buckets, target) by { TargetSound(bounds, h, s, target); }
    StopAtLast(s, k, target);
    if k > 0 {
      assert target - Cumulative(s.buckets, k) as real == s.buckets[k] as real;
      WholeBucket(bounds[k - 1], UpperEnd(bounds, s, k), s.buckets[k]);
    }
  }

  lemma LowestAtMostHighest(bounds: seq<real>, h: seq<Add>, s: Tally)
    requires s == Histogram(bounds, h) && |Expand(h)| >= 1
    ensures Lowest(s) <= Highest(s)
  {
    ExtremesEnclose(bounds, h, s, Expand(h)[0]);
  }

  ghost predicate AtMostMax(bounds: seq<real>, s: Tally, q: real)
    requires |s.buckets| == |bounds| + 1
  {
    Quantile(bounds, s, q).Ok? && Quantile(bounds, s, q).value <= Highest(s)
  }

  lemma AtOne(bounds: seq<real>, h: seq<Add>, s: Tally)
    requires s == Histogram(bounds, h) && |Expand(h)| >= 1
    ensures Quantile(bounds, s, 1.0) == Ok(At(bounds, s, |Expand(h)| as real))
  {
    QuantileIsAt(bounds, h, s, 1.0);
    assert TargetOf(1.0, |Expand(h)|) == |Expand(h)| as real;
  }

  /** No quantile exceeds max if and only if the last counted bucket is the lowest one, the one closed
      by max, or ends no higher than max. */
  lemma AtMostMaxIff(bounds: seq<real>, h: seq<Add>, s: Tally) returns (k: nat)
    requires SortedBounds(bounds) && s == Histogram(bounds, h) && |Expand(h)| >= 1
    ensures LastCounted(s, k)
    ensures (forall q :: 0.0 <= q <= 1.0 ==> AtMostMax(bounds, s, q)) <==>
      k == 0 || k == |bounds| || bounds[k] <= Highest(s)
  {
    AllTotal(bounds, h, s);
    k := LastNonEmpty(s.buckets, |s.buckets|);
    AnswerAtTop(bounds, h, s, k);
    LowestAtMostHighest(bounds, h, s);
    AtOne(bounds, h, s);
    if k == 0 || k == |bounds| || bounds[k] <= Highest(s) {
      forall q | 0.0 <= q <= 1.0 ensures AtMostMax(bounds, s, q) {
        BelowTop(bounds, h, s, q);
      }
    } else {
      assert !AtMostMax(bounds, s, 1.0);
    }
  }

  lemma BelowTop(bounds: seq<real>, h: seq<Add>, s: Tally, q: real)
    requires SortedBounds(bounds) && s == Histogram(bounds, h) && |Expand(h)| >= 1 && 0.0 <= q <= 1.0
    requires AtMostMax(bounds, s, 1.0)
    ensures AtMostMax(bounds, s, q)
  {
    if q == 0.0 {
      Totals(|bounds| + 1, v => Position(bounds, v), h);
      QuantileAtZero(bounds, s);
      LowestAtMostHighest(bounds, h, s);
    } else {
      QuantileMonotone(bounds, h, s, q, 1.0);
    }
  }

  /** All quantiles lie between min and max if and only if both conditions hold: the first counted
      bucket does not start below min, and the last does not end above max. */
  lemma InRangeIff(bounds: seq<real>, h: seq<Add>, s: Tally) returns (first: nat, last: nat)
    requires SortedBounds(bounds) && s == Histogram(bounds, h) && |Expand(h)| >= 1
    ensures First(s, first) && LastCounted(s, last)
    ensures (forall q :: 0.0 <= q <= 1.0 ==> AtMostMax(bounds, s, q) && Lowest(s) <= Quantile(bounds, s, q).value) <==>
      && (first == 0 || Lowest(s) <= bounds[first - 1])
      && (last == 0 || last == |bounds| || bounds[last] <= Highest(s))
  {
    first := MonotoneAtZeroIff(bounds, h, s);
    last := AtMostMaxIff(bounds, h, s);
    Totals(|bounds| + 1, v => Position(bounds, v), h);
    QuantileAtZero(bounds, s);
  }

  // ------------------------------------------------------------------------ failing inputs

  lemma OneValue(bounds: seq<real>, v: real)
    ensures Expand([Add(v, 1)]) == [v]
    ensures Histogram(bounds, [Add(v, 1)]) == AddedAt(Empty(|bounds| + 1), Position(bounds, v), Add(v, 1))
  {
    var h := [Add(v, 1)];
    assert h[..0] == [] && h[1..] == [];
    assert Repeat(v, 1) == [v];
    var n, index := |bounds| + 1, (v: real) => Position(bounds, v);
    assert Build(n, index, h) == AddedAt(Build(n, index, h[..0]), index(v), h[0]);
    assert Histogram(bounds, h) == Build(n, index, h);
  }

  /** With the boundary 0 and the single value 5, quantile(0) is 5 but quantile(1/2) is only 2.5. */
  lemma HalfBelowZero()
    ensures var s := Histogram([0.0], [Add(5.0, 1)]);
      Quantile([0.0], s, 0.0) == Ok(5.0) && Quantile([0.0], s, 0.5) == Ok(2.5)
  {
    OneValue([0.0], 5.0);
    assert Position([0.0], 5.0) == 1;
    var s := Histogram([0.0], [Add(5.0, 1)]);
    assert s.buckets == [0, 1];
    assert TargetOf(0.0, 1) == 0.0 && TargetOf(0.5, 1) == 0.5;
    assert Cumulative(s.buckets, 0) == 0 && Cumulative(s.buckets, 1) == 0;
    assert Scan(s.buckets, 0.5, 1) == 1;
    assert Scan(s.buckets, 0.5, 0) == 1;
  }

  /** With the boundaries 0 and 10 and the single value 5, quantile(1) is 10. */
  lemma TopAboveMax()
    ensures var s := Histogram([0.0, 10.0], [Add(5.0, 1)]);
      Highest(s) == 5.0 && Quantile([0.0, 10.0], s, 1.0) == Ok(10.0)
  {
    var bounds := [0.0, 10.0];
    OneValue(bounds, 5.0);
    assert Position(bounds, 5.0) == 1;
    var s := Histogram(bounds, [Add(5.0, 1)]);
    assert s.buckets == [0, 1, 0];
    assert Cumulative(s.buckets, 1) == 0 && Cumulative(s.buckets, 2) == 1 && Cumulative(s.buckets, 3) == 1;
    AnswerAtTop(bounds, [Add(5.0, 1)], s, 1);
    AtOne(bounds, [Add(5.0, 1)], s);
  }
}
