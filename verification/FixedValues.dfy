/** The exact answer of the fixed-bucket quantile in terms of the added values. */
module FixedValues {
  import opened Wrappers
  import opened OrderStatistics
  import opened Samples
  import opened HistogramErrors
  import opened FixedBucket
  import opened FixedQuantile
  import FixedBucketObject

  lemma RankUnique(r: nat, target: real)
    requires (r as real) < target <= (r + 1) as real
    ensures RankOf(target) == r
  {
  }

  lemma TargetIs(q: real, n: nat, target: real)
    requires 0.0 < q <= 1.0 && n >= 1 && target == q * n as real
    ensures target == TargetOf(q, n) && 0.0 < target <= n as real
  {
    TargetRange(q, n);
  }

  /** How many values lie below bucket i, and how many in it. */
  function Under(values: seq<real>, bounds: seq<real>, i: nat): nat
    requires i <= |bounds|
  {
    if i == 0 then 0 else CountUnder(values, bounds[i - 1])
  }

  /** The answer of bucket i to the target x: min in the lowest bucket, otherwise the point that the
      part of the bucket's values within the target leads to. */
  ghost function Interpolated(bounds: seq<real>, values: seq<real>, min: real, max: real, i: nat, x: real): real
    requires i <= |bounds|
  {
    var count := FixedBucketObject.CountInBucket(values, bounds, i);
    if i == 0 || count == 0 then min
    else
      var lo, hi := bounds[i - 1], if i < |bounds| then bounds[i] else max;
      lo + (hi - lo) * ((x - Under(values, bounds, i) as real) / count as real)
  }

  lemma PositionBelow(bounds: seq<real>, v: real, i: nat)
    requires SortedBounds(bounds) && 0 < i <= |bounds|
    ensures Position(bounds, v) < i <==> v < bounds[i - 1]
  {
    SearchMeaning(bounds, v, 0);
    var p := Position(bounds, v);
    assert p < i - 1 ==> bounds[p] <= bounds[i - 1];
    assert p > i ==> bounds[i - 1] <= bounds[p - 1];
  }

  /** The running sum at bucket i is the number of values below it. */
  lemma CumulativeIsUnder(bounds: seq<real>, h: seq<Add>, s: Tally, i: nat)
    requires SortedBounds(bounds) && s == Histogram(bounds, h) && i <= |bounds|
    ensures Cumulative(s.buckets, i) == Under(Expand(h), bounds, i)
  {
    if i > 0 {
      var e := Expand(h);
      var f := (v: real) => Position(bounds, v) as int;
      forall j | 0 <= j < |e| ensures f(e[j]) < i <==> e[j] < bounds[i - 1] {
        PositionBelow(bounds, e[j], i);
      }
      BelowIsUnder(f, e, i, bounds[i - 1]);
      assert Map(f, e) == Indices(v => Position(bounds, v), h);
      HistogramFaithful(bounds, h);
      CumulativeIsBelow(s.buckets, Indices(v => Position(bounds, v), h), i);
    }
  }

  lemma AnswerAtIs(bounds: seq<real>, s: Tally, values: seq<real>, target: real, i: nat)
    requires |s.buckets| == |bounds| + 1 && i < |s.buckets|
    requires s.buckets[i] == FixedBucketObject.CountInBucket(values, bounds, i) > 0
    requires Cumulative(s.buckets, i) == Under(values, bounds, i)
    ensures AnswerAt(bounds, s, target, i) == Interpolated(bounds, values, Lowest(s), Highest(s), i, target)
  {
  }

  lemma AnswerIs(bounds: seq<real>, h: seq<Add>, s: Tally, target: real, i: nat)
    requires SortedBounds(bounds) && s == Histogram(bounds, h) && Stops(s.buckets, target) && i == StopBucket(s.buckets, target)
    ensures i <= |bounds| && FixedBucketObject.CountInBucket(Expand(h), bounds, i) > 0
    ensures At(bounds, s, target) == Interpolated(bounds, Expand(h), Lowest(s), Highest(s), i, target)
  {
    assert s.buckets[i] == FixedBucketObject.CountInBucket(Expand(h), bounds, i) by {
      FixedBucketObject.BucketMeaning(bounds, h, s, i);
    }
    assert Cumulative(s.buckets, i) == Under(Expand(h), bounds, i) by { CumulativeIsUnder(bounds, h, s, i); }
    AnswerAtIs(bounds, s, Expand(h), target, i);
  }

  /** x is the answer of bucket i, which holds the value v, to the target. */
  ghost predicate Answers(bounds: seq<real>, values: seq<real>, s: Tally, i: nat, v: real, target: real, x: real) {
    && i <= |bounds| && (i > 0 ==> bounds[i - 1] <= v) && (i < |bounds| ==> v < bounds[i])
    && FixedBucketObject.CountInBucket(values, bounds, i) > 0
    && s.min.Some? && s.max.Some?
    && x == Interpolated(bounds, values, s.min.value, s.max.value, i, target)
  }

  lemma TargetValue(bounds: seq<real>, h: seq<Add>, s: Tally, target: real) returns (i: nat)
    requires SortedBounds(bounds) && s == Histogram(bounds, h) && 0.0 < target <= |Expand(h)| as real
    ensures 0 <= RankOf(target) < |Expand(h)|
    ensures Answers(bounds, Expand(h), s, i, Ranked(Expand(h))[RankOf(target)], target, At(bounds, s, target))
  {
    var values := Expand(h);
    RankedIsRanking(values);
    AnswerSharesRankBucket(bounds, h, s, target, Ranked(values));
    i := StopBucket(s.buckets, target);
    AnswerIs(bounds, h, s, target, i);
    ExtremesEnclose(bounds, h, s, values[0]);
  }

  lemma QuantileAtTarget(bounds: seq<real>, h: seq<Add>, s: Tally, q: real, n: nat, target: real, r: nat) returns (i: nat)
    requires SortedBounds(bounds) && s == Histogram(bounds, h) && 0.0 <= q <= 1.0 && n == |Expand(h)| >= 1
    requires target == TargetOf(q, n) && 0.0 < target <= n as real && (r as real) < target <= (r + 1) as real
    ensures r < n && Quantile(bounds, s, q).Ok?
    ensures Answers(bounds, Expand(h), s, i, Ranked(Expand(h))[r], target, Quantile(bounds, s, q).value)
  {
    RankUnique(r, target);
    i := TargetValue(bounds, h, s, target);
    assert Quantile(bounds, s, q) == Ok(At(bounds, s, target)) by { QuantileIsAt(bounds, h, s, q); }
  }

  /** For 0 < q <= 1 the answer is that of the bucket which holds the element of 0-based rank
      r = ceil(q * n) - 1, to the target q * n. */
  lemma QuantileValue(bounds: seq<real>, h: seq<Add>, q: real, target: real, r: nat) returns (i: nat)
    requires SortedBounds(bounds) && 0.0 < q <= 1.0 && |Expand(h)| >= 1
    requires target == q * |Expand(h)| as real && (r as real) < target <= (r + 1) as real
    ensures var s, values := Histogram(bounds, h), Expand(h);
      && r < |values| && Quantile(bounds, s, q).Ok?
      && Answers(bounds, values, s, i, Ranked(values)[r], target, Quantile(bounds, s, q).value)
  {
    TargetIs(q, |Expand(h)|, target);
    i := QuantileAtTarget(bounds, h, Histogram(bounds, h), q, |Expand(h)|, target, r);
  }

  /** The quantile fails exactly for q outside [0, 1], and otherwise for a histogram without values; at
      zero it is min. */
  lemma QuantileFails(bounds: seq<real>, h: seq<Add>, q: real)
    ensures Quantile(bounds, Histogram(bounds, h), q) == Err(InvalidArgument) <==> q < 0.0 || q > 1.0
    ensures Quantile(bounds, Histogram(bounds, h), q) == Err(EmptyHistogram) <==> 0.0 <= q <= 1.0 && Expand(h) == []
    ensures Expand(h) != [] ==> Quantile(bounds, Histogram(bounds, h), 0.0) == Ok(Lowest(Histogram(bounds, h)))
  {
    Totals(|bounds| + 1, v => Position(bounds, v), h);
    if Expand(h) != [] {
      QuantileAtZero(bounds, Histogram(bounds, h));
    }
  }
}
