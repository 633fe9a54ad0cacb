/** The exact answer of the DDSketch quantile in terms of the added values. */
module DDValues {
  import opened Wrappers
  import opened RealPower
  import opened OrderStatistics
  import opened Samples
  import opened HistogramErrors
  import opened BucketScan
  import opened DDSketch
  import opened DDQuantile

  /** The answer for rank t inside the interval [lo, hi) of the values. */
  function Interpolated(values: seq<real>, lo: real, hi: real, t: nat): real {
    var below, count := CountUnder(values, lo), CountIn(values, lo, hi);
    if count == 0 then lo else lo + ((t - below) as real / count as real) * (hi - lo)
  }

  /** r is the answer for the value v of rank t, which lies in the interval of the k-th power. */
  ghost predicate Answers(alpha: real, k: int, values: seq<real>, v: real, t: nat, r: Result<real>)
    requires alpha > 0.0
  {
    var lo, hi := Pow(1.0 + alpha, k), Pow(1.0 + alpha, k + 1);
    && lo <= v < hi
    && CountIn(values, lo, hi) > 0
    && r == Ok(Interpolated(values, lo, hi, t))
  }

  /** The running sum at bucket k is the number of values below the bucket. */
  lemma BelowBucket(alpha: real, h: seq<Add>, k: int)
    requires alpha > 0.0 && Positive(h)
    ensures Below(Indices(v => IndexOf(alpha, v), h), k) == CountUnder(Expand(h), Pow(1.0 + alpha, k))
  {
    var f := (v: real) => IndexOf(alpha, v);
    var e := Expand(h);
    ExpandPositive(h);
    forall i | 0 <= i < |e| ensures f(e[i]) < k <==> e[i] < Pow(1.0 + alpha, k) {
      assert e[i] in e;
      BelowBoundary(alpha, e[i], k);
    }
    BelowIsUnder(f, e, k, Pow(1.0 + alpha, k));
  }

  lemma CumulativeIsUnder(alpha: real, h: seq<Add>, counts: map<int, nat>, keys: seq<int>, i: nat)
    requires alpha > 0.0 && Positive(h) && counts == Sketch(alpha, h).counts && keys == Keys(counts)
    requires Lists(keys, counts) && i < |keys|
    ensures Cumulative(counts, keys, i) == CountUnder(Expand(h), Pow(1.0 + alpha, keys[i]))
  {
    var indices := Indices(v => IndexOf(alpha, v), h);
    assert Cumulative(counts, keys, i) == Below(indices, keys[i]) by {
      BuildFaithful(v => IndexOf(alpha, v), h);
      CumulativeIsBelow(counts, keys, indices, i);
    }
    BelowBucket(alpha, h, keys[i]);
  }

  lemma CountIsInterval(alpha: real, h: seq<Add>, counts: map<int, nat>, k: int)
    requires alpha > 0.0 && Positive(h) && counts == Sketch(alpha, h).counts && k in counts
    ensures counts[k] == CountIn(Expand(h), Pow(1.0 + alpha, k), Pow(1.0 + alpha, k + 1))
  {
    BucketCountIsIntervalCount(alpha, h, k);
  }

  lemma EstimateIs(alpha: real, counts: map<int, nat>, keys: seq<int>, max: Option<real>, t: nat, lo: real, hi: real, below: nat, count: nat)
    requires alpha > 0.0 && Stops(counts, keys, t)
    requires lo == Edge(alpha, StopBucket(counts, keys, t)) && hi == Edge(alpha, StopBucket(counts, keys, t) + 1)
    requires below == Cumulative(counts, keys, Scan(counts, keys, t, 0)) && count == counts[StopBucket(counts, keys, t)]
    ensures below <= t < below + count
    ensures Estimate(alpha, counts, keys, max, t) == Ok(Interpolate(lo, hi, t - below, count))
  {
  }

  lemma InterpolatedIs(values: seq<real>, lo: real, hi: real, t: nat, below: nat, count: nat)
    requires below == CountUnder(values, lo) <= t && count == CountIn(values, lo, hi) > 0
    ensures Interpolate(lo, hi, t - below, count) == Interpolated(values, lo, hi, t)
  {
  }

  lemma ManyAnswer(alpha: real, s: Tally, q: real, t: nat)
    requires s.totalCount >= 2 && 0.0 <= q <= 1.0 && IsRank(t, q, s.totalCount)
    ensures Quantile(alpha, s, q) == Estimate(alpha, s.counts, Keys(s.counts), s.max, t)
  {
    TargetIsRank(t, q, s.totalCount);
  }

  /** With two or more values, the answer interpolates, by rank, between the ends of the interval of
      powers of 1 + alpha that holds the element of rank t = floor(q * (n - 1)). */
  lemma QuantileValue(alpha: real, h: seq<Add>, q: real, t: nat) returns (k: int)
    requires 0.0 < alpha < 1.0 && Positive(h) && 0.0 <= q <= 1.0 && |Expand(h)| >= 2 && IsRank(t, q, |Expand(h)|)
    ensures t < |Expand(h)| && Answers(alpha, k, Expand(h), Ranked(Expand(h))[t], t, Quantile(alpha, Sketch(alpha, h), q))
  {
    var s, n := Sketch(alpha, h), |Expand(h)|;
    assert s.totalCount == n by { Totals(v => IndexOf(alpha, v), h); }
    assert t < n by { TargetIsRank(t, q, n); }
    ManyAnswer(alpha, s, q, t);
    k := EstimateValue(alpha, h, s, t);
  }

  lemma EstimateValue(alpha: real, h: seq<Add>, s: Tally, t: nat) returns (k: int)
    requires 0.0 < alpha < 1.0 && Positive(h) && t < |Expand(h)| && s == Sketch(alpha, h)
    ensures Answers(alpha, k, Expand(h), Ranked(Expand(h))[t], t, Estimate(alpha, s.counts, Keys(s.counts), s.max, t))
  {
    var keys, values, v := Keys(s.counts), Expand(h), Ranked(Expand(h))[t];
    assert Stops(s.counts, keys, t) && InStopBucket(alpha, s.counts, keys, t, v) by {
      RankedIsRanking(values);
      StopsAtRank(alpha, h, s.counts, keys, t, Ranked(values));
    }
    k := StopBucket(s.counts, keys, t);
    assert InBucket(alpha, k, v);
    StopAnswer(alpha, h, s, keys, t, k, values);
    AnswersFrom(alpha, k, values, v, t, Estimate(alpha, s.counts, keys, s.max, t));
  }

  lemma AnswersFrom(alpha: real, k: int, values: seq<real>, v: real, t: nat, r: Result<real>)
    requires alpha > 0.0 && InBucket(alpha, k, v) && Answers(alpha, k, values, Pow(1.0 + alpha, k), t, r)
    ensures Answers(alpha, k, values, v, t, r)
  {
  }

  lemma StopAnswer(alpha: real, h: seq<Add>, s: Tally, keys: seq<int>, t: nat, k: int, values: seq<real>)
    requires 0.0 < alpha < 1.0 && Positive(h) && s == Sketch(alpha, h) && keys == Keys(s.counts) && values == Expand(h)
    requires Stops(s.counts, keys, t) && k == StopBucket(s.counts, keys, t)
    ensures Answers(alpha, k, values, Pow(1.0 + alpha, k), t, Estimate(alpha, s.counts, keys, s.max, t))
  {
    var i := Scan(s.counts, keys, t, 0);
    var lo, hi, below, count := Edge(alpha, k), Edge(alpha, k + 1), Cumulative(s.counts, keys, i), s.counts[k];
    assert below == CountUnder(values, lo) by { CumulativeIsUnder(alpha, h, s.counts, keys, i); }
    assert count == CountIn(values, lo, hi) by { CountIsInterval(alpha, h, s.counts, k); }
    assert lo < hi by { PowStepUp(1.0 + alpha, k); }
    EstimateIs(alpha, s.counts, keys, s.max, t, lo, hi, below, count);
    InterpolatedIs(values, lo, hi, t, below, count);
  }

  /** With one value the answer is min, which is the least value of any add call. */
  lemma OneAnswer(alpha: real, h: seq<Add>, q: real) returns (i: nat)
    requires 0.0 <= q <= 1.0 && |Expand(h)| == 1
    ensures i < |h| && (forall j :: 0 <= j < |h| ==> h[i].value <= h[j].value)
    ensures Quantile(alpha, Sketch(alpha, h), q) == Ok(h[i].value)
  {
    Totals(v => IndexOf(alpha, v), h);
    var j;
    i, j := Extremes(v => IndexOf(alpha, v), h);
  }

  /** The quantile fails exactly for q outside [0, 1], and otherwise for a sketch without values. */
  lemma QuantileFails(alpha: real, h: seq<Add>, q: real)
    requires 0.0 < alpha < 1.0 && Positive(h)
    ensures Quantile(alpha, Sketch(alpha, h), q) == Err(InvalidArgument) <==> q < 0.0 || q > 1.0
    ensures Quantile(alpha, Sketch(alpha, h), q) == Err(EmptyHistogram) <==> 0.0 <= q <= 1.0 && Expand(h) == []
    ensures Quantile(alpha, Sketch(alpha, h), q).Ok? <==> 0.0 <= q <= 1.0 && Expand(h) != []
  {
    Totals(v => IndexOf(alpha, v), h);
    if 0.0 <= q <= 1.0 && Expand(h) != [] {
      QuantileMonotone(alpha, h, q, q);
    }
  }
}
