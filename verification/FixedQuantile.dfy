/** The fixed-bucket quantile: where the scan stops, what the answer is worth, and how it moves
    with q. */
module FixedQuantile {
  import opened RealArithmetic
  import opened OrderStatistics
  import opened Samples
  import opened HistogramErrors
  import opened FixedBucket

  /** The total count of the first n buckets. */
  function Cumulative(buckets: seq<nat>, n: nat): nat
    requires n <= |buckets|
  {
    if n == 0 then 0 else Cumulative(buckets, n - 1) + buckets[n - 1]
  }

  /** Where the scan for `target` stops, from position i. */
  function Scan(buckets: seq<nat>, target: real, i: nat): (r: nat)
    requires i <= |buckets| && (i > 0 ==> (Cumulative(buckets, i) as real) < target)
    ensures i <= r <= |buckets|
    ensures r > 0 ==> (Cumulative(buckets, r) as real) < target
    ensures r < |buckets| ==> target <= (Cumulative(buckets, r) + buckets[r]) as real
    decreases |buckets| - i
  {
    if i < |buckets| && ((Cumulative(buckets, i) + buckets[i]) as real) < target
    then Scan(buckets, target, i + 1) else i
  }

  /** Interpolation between the bucket's ends; C++ divides doubles, so an empty bucket would not trap. */
  function Interpolate(start: real, end: real, offset: real, count: nat): real {
    if count == 0 then start else start + (end - start) * (offset / count as real)
  }

  function Lowest(s: Tally): real {
    if s.min.Some? then s.min.value else 0.0
  }

  function Highest(s: Tally): real {
    if s.max.Some? then s.max.value else 0.0
  }

  function UpperEnd(bounds: seq<real>, s: Tally, i: nat): real {
    if i < |bounds| then bounds[i] else Highest(s)
  }

  /** The answer when the scan stopped at bucket i. */
  function AnswerAt(bounds: seq<real>, s: Tally, target: real, i: nat): real
    requires |s.buckets| == |bounds| + 1 && i <= |s.buckets|
  {
    if i == 0 then Lowest(s)
    else if i == |s.buckets| then Highest(s)
    else Interpolate(bounds[i - 1], UpperEnd(bounds, s, i), target - Cumulative(s.buckets, i) as real, s.buckets[i])
  }

  function TargetOf(q: real, n: nat): real {
    q * (n as real)
  }

  /** The answer for a target number of values. */
  function At(bounds: seq<real>, s: Tally, target: real): real
    requires |s.buckets| == |bounds| + 1
  {
    AnswerAt(bounds, s, target, Scan(s.buckets, target, 0))
  }

  function Quantile(bounds: seq<real>, s: Tally, q: real): Result<real>
    requires |s.buckets| == |bounds| + 1
  {
    if q < 0.0 || q > 1.0 then Err(InvalidArgument)
    else if s.count == 0 then Err(EmptyHistogram)
    else Ok(At(bounds, s, TargetOf(q, s.count)))
  }

  // ----------------------------------------------------------------- boundaries

  function Position(bounds: seq<real>, v: real): nat {
    Search(bounds, v, 0)
  }

  lemma {:induction false} SearchMeaning(bounds: seq<real>, v: real, i: nat)
    requires SortedBounds(bounds) && i <= |bounds| && (i > 0 ==> bounds[i - 1] <= v)
    ensures var r := Search(bounds, v, i);
      (r > 0 ==> bounds[r - 1] <= v) && (r < |bounds| ==> v < bounds[r])
    decreases |bounds| - i
  {
    if i < |bounds| && v >= bounds[i] {
      SearchMeaning(bounds, v, i + 1);
    }
  }

  /** Value v lies in bucket i: at or above the boundary below, under the boundary above. */
  ghost predicate InBucket(bounds: seq<real>, i: nat, v: real) {
    i <= |bounds| && (i > 0 ==> bounds[i - 1] <= v) && (i < |bounds| ==> v < bounds[i])
  }

  /** The search finds the one bucket that contains v. */
  lemma PositionIsBucket(bounds: seq<real>, v: real, i: nat)
    requires SortedBounds(bounds)
    ensures InBucket(bounds, i, v) <==> i == Position(bounds, v)
  {
    SearchMeaning(bounds, v, 0);
    var r := Position(bounds, v);
    if i <= |bounds| && i < r {
      assert i == r - 1 || bounds[i] <= bounds[r - 1];
    } else if r < i <= |bounds| {
      assert r == i - 1 || bounds[r] <= bounds[i - 1];
    }
  }

  lemma PositionMonotone(bounds: seq<real>, x: real, y: real)
    requires SortedBounds(bounds) && x <= y
    ensures Position(bounds, x) <= Position(bounds, y)
  {
    SearchMeaning(bounds, x, 0);
    SearchMeaning(bounds, y, 0);
  }

  /** The histogram of the add calls h. */
  ghost function Histogram(bounds: seq<real>, h: seq<Add>): (s: Tally)
    ensures |s.buckets| == |bounds| + 1
  {
    Build(|bounds| + 1, v => Position(bounds, v), h)
  }

  // ---------------------------------------------------------------- where the scan stops

  ghost predicate Faithful(buckets: seq<nat>, indices: seq<int>) {
    && (forall k :: 0 <= k < |buckets| ==> buckets[k] == CountOf(indices, k))
    && (forall i :: 0 <= i < |indices| ==> 0 <= indices[i] < |buckets|)
  }

  lemma {:induction false} CumulativeIsBelow(buckets: seq<nat>, indices: seq<int>, n: nat)
    requires Faithful(buckets, indices) && n <= |buckets|
    ensures Cumulative(buckets, n) == Below(indices, n)
  {
    if n == 0 {
      BelowNone(indices, 0);
    } else {
      CumulativeIsBelow(buckets, indices, n - 1);
      BelowNext(indices, n - 1);
    }
  }

  lemma AllCounted(buckets: seq<nat>, indices: seq<int>)
    requires Faithful(buckets, indices)
    ensures Cumulative(buckets, |buckets|) == |indices|
  {
    CumulativeIsBelow(buckets, indices, |buckets|);
    BelowAll(indices, |buckets|);
  }

  lemma HistogramFaithful(bounds: seq<real>, h: seq<Add>)
    ensures Faithful(Histogram(bounds, h).buckets, Indices(v => Position(bounds, v), h))
  {
    var index := v => Position(bounds, v);
    forall k | 0 <= k < |bounds| + 1 ensures Histogram(bounds, h).buckets[k] == CountOf(Indices(index, h), k) {
      BucketCountOf(|bounds| + 1, index, h, k);
    }
  }

  /** For a positive target the scan stops at a non-empty bucket, strictly past the counts before it
      and within its own. */
  ghost predicate Stops(buckets: seq<nat>, target: real) {
    var i := Scan(buckets, target, 0);
    && i < |buckets| && buckets[i] > 0
    && (Cumulative(buckets, i) as real) < target <= (Cumulative(buckets, i) + buckets[i]) as real
  }

  lemma ScanStops(buckets: seq<nat>, indices: seq<int>, target: real)
    requires Faithful(buckets, indices) && 0.0 < target <= |indices| as real
    ensures Stops(buckets, target)
  {
    AllCounted(buckets, indices);
    var i := Scan(buckets, target, 0);
  }

  /** The bucket where the scan for `target` stops. */
  ghost function StopBucket(buckets: seq<nat>, target: real): nat
    requires Stops(buckets, target)
  {
    Scan(buckets, target, 0)
  }

  lemma TargetRange(q: real, n: nat)
    requires 0.0 < q <= 1.0 && n >= 1
    ensures 0.0 < TargetOf(q, n) <= n as real
  {
    MulPositive(q, n as real);
    MulMono(q, 1.0, n as real);
  }

  lemma TargetMonotone(p: real, q: real, n: nat)
    requires p <= q
    ensures TargetOf(p, n) <= TargetOf(q, n)
  {
    MulMono(p, q, n as real);
  }

  lemma HistogramStops(bounds: seq<real>, h: seq<Add>, s: Tally, target: real)
    requires s == Histogram(bounds, h) && 0.0 < target <= |Expand(h)| as real
    ensures Stops(s.buckets, target)
  {
    HistogramFaithful(bounds, h);
    ScanStops(s.buckets, Indices(v => Position(bounds, v), h), target);
  }

  // --------------------------------------------------------------------- accuracy

  /** 1-based rank ceil(target), as a 0-based position. */
  function RankOf(target: real): int {
    -((-target).Floor) - 1
  }

  lemma RankBetween(a: nat, b: nat, target: real)
    requires (a as real) < target <= b as real
    ensures a <= RankOf(target) < b
  {
  }

  lemma RankCounted(bounds: seq<real>, h: seq<Add>, s: Tally, target: real, indices: seq<int>, i: nat)
    requires s == Histogram(bounds, h) && indices == Indices(v => Position(bounds, v), h)
    requires Stops(s.buckets, target) && i == StopBucket(s.buckets, target)
    ensures Below(indices, i) <= RankOf(target) < Below(indices, i + 1)
  {
    HistogramFaithful(bounds, h);
    RankBetween(Cumulative(s.buckets, i), Cumulative(s.buckets, i + 1), target);
    CumulativeIsBelow(s.buckets, indices, i);
    CumulativeIsBelow(s.buckets, indices, i + 1);
  }

  /** The element of rank ceil(target) lies in the bucket where the scan stops. */
  lemma RankInStopBucket(bounds: seq<real>, h: seq<Add>, s: Tally, target: real, ranked: seq<real>)
    requires SortedBounds(bounds) && s == Histogram(bounds, h)
    requires 0.0 < target <= |Expand(h)| as real && |ranked| == |Expand(h)| && Ranking(Expand(h), ranked)
    ensures Stops(s.buckets, target) && 0 <= RankOf(target) < |ranked|
    ensures InBucket(bounds, StopBucket(s.buckets, target), ranked[RankOf(target)])
  {
    var index := (v: real) => Position(bounds, v);
    var indices := Indices(index, h);
    HistogramStops(bounds, h, s, target);
    var i := StopBucket(s.buckets, target);
    RankCounted(bounds, h, s, target, indices, i);
    forall x, y | x <= y && x in Expand(h) && y in Expand(h) ensures Position(bounds, x) <= Position(bounds, y) {
      PositionMonotone(bounds, x, y);
    }
    RankInBucket(v => index(v) as int, Expand(h), ranked, RankOf(target), i);
    PositionIsBucket(bounds, ranked[RankOf(target)], i);
  }

  /** `x` lies in the closed bucket i: the first bucket is open below, the last is closed by max. */
  ghost predicate InClosedBucket(bounds: seq<real>, s: Tally, i: nat, x: real) {
    && (i > 0 && i <= |bounds| ==> bounds[i - 1] <= x)
    && (i < |bounds| ==> x <= bounds[i])
    && (i == |bounds| ==> x <= Highest(s))
  }

  lemma InterpolateBetween(start: real, end: real, offset: real, count: nat)
    requires start <= end && 0.0 < offset <= count as real
    ensures start <= Interpolate(start, end, offset, count) <= end
  {
    FractionAtMostOne(offset, count as real);
    MulMono(0.0, offset / count as real, end - start);
    MulMono(offset / count as real, 1.0, end - start);
  }

  /** What the extremes guarantee about the bucket where a scan stops. */
  ghost predicate EndsEnclose(bounds: seq<real>, s: Tally, i: nat) {
    && i <= |bounds|
    && (i == 0 && |bounds| > 0 ==> Lowest(s) <= bounds[0])
    && (i == 0 ==> Lowest(s) <= Highest(s))
    && (i > 0 ==> bounds[i - 1] <= UpperEnd(bounds, s, i))
  }

  lemma AnswerInClosedBucket(bounds: seq<real>, s: Tally, target: real)
    requires |s.buckets| == |bounds| + 1 && Stops(s.buckets, target)
    requires EndsEnclose(bounds, s, StopBucket(s.buckets, target))
    ensures InClosedBucket(bounds, s, StopBucket(s.buckets, target), At(bounds, s, target))
  {
    var i := StopBucket(s.buckets, target);
    if i > 0 {
      InterpolateBetween(bounds[i - 1], UpperEnd(bounds, s, i), target - Cumulative(s.buckets, i) as real, s.buckets[i]);
    }
  }

  /** A value inside the stop bucket keeps the bucket's ends on the right sides. */
  lemma ValueEncloses(bounds: seq<real>, s: Tally, i: nat, v: real)
    requires SortedBounds(bounds) && InBucket(bounds, i, v)
    requires s.min.Some? && s.max.Some? && s.min.value <= v <= s.max.value
    ensures EndsEnclose(bounds, s, i)
  {
  }

  /** min and max enclose every value. */
  lemma ExtremesEnclose(bounds: seq<real>, h: seq<Add>, s: Tally, v: real)
    requires s == Histogram(bounds, h) && v in Expand(h)
    ensures s.min.Some? && s.max.Some? && s.min.value <= v <= s.max.value
  {
    var i :| 0 <= i < |Expand(h)| && Expand(h)[i] == v;
    var j := ExpandMember(h, i);
    var lowest, highest := Extremes(|bounds| + 1, v => Position(bounds, v), h);
  }

  lemma StopEnclosed(bounds: seq<real>, h: seq<Add>, s: Tally, target: real)
    requires SortedBounds(bounds) && s == Histogram(bounds, h) && Stops(s.buckets, target)
    ensures EndsEnclose(bounds, s, StopBucket(s.buckets, target))
  {
    var i := StopBucket(s.buckets, target);
    var v := SomeValueIn(bounds, h, s, i);
    ExtremesEnclose(bounds, h, s, v);
    ValueEncloses(bounds, s, i, v);
  }

  /** A non-empty bucket holds one of the added values. */
  lemma SomeValueIn(bounds: seq<real>, h: seq<Add>, s: Tally, i: nat) returns (v: real)
    requires SortedBounds(bounds) && s == Histogram(bounds, h) && i < |s.buckets| && s.buckets[i] > 0
    ensures v in Expand(h) && InBucket(bounds, i, v)
  {
    var index := (v: real) => Position(bounds, v);
    HistogramFaithful(bounds, h);
    var k := CountOfPositive(Indices(index, h), i);
    v := Expand(h)[k];
    PositionIsBucket(bounds, v, i);
  }

  lemma {:induction false} CountOfPositive(s: seq<int>, k: int) returns (i: nat)
    requires CountOf(s, k) > 0
    ensures i < |s| && s[i] == k
  {
    if s[0] == k {
      i := 0;
    } else {
      i := CountOfPositive(s[1..], k);
      i := i + 1;
    }
  }

  lemma QuantileIsAt(bounds: seq<real>, h: seq<Add>, s: Tally, q: real)
    requires s == Histogram(bounds, h) && |Expand(h)| >= 1 && 0.0 <= q <= 1.0
    ensures Quantile(bounds, s, q) == Ok(At(bounds, s, TargetOf(q, |Expand(h)|)))
  {
    assert s.count == |Expand(h)| by { Totals(|bounds| + 1, v => Position(bounds, v), h); }
  }

  lemma TargetSound(bounds: seq<real>, h: seq<Add>, s: Tally, target: real)
    requires SortedBounds(bounds) && s == Histogram(bounds, h) && 0.0 < target <= |Expand(h)| as real
    ensures Stops(s.buckets, target) && EndsEnclose(bounds, s, StopBucket(s.buckets, target))
  {
    HistogramStops(bounds, h, s, target);
    StopEnclosed(bounds, h, s, target);
  }

  /** The scan stops at a non-empty bucket, which contains the true element of rank ceil(target), and
      the answer lies in that bucket's closure. */
  lemma AnswerSharesRankBucket(bounds: seq<real>, h: seq<Add>, s: Tally, target: real, ranked: seq<real>)
    requires SortedBounds(bounds) && s == Histogram(bounds, h) && 0.0 < target <= |Expand(h)| as real
    requires |Expand(h)| == |ranked| && Ranking(Expand(h), ranked)
    ensures Stops(s.buckets, target) && 0 <= RankOf(target) < |ranked|
    ensures InBucket(bounds, StopBucket(s.buckets, target), ranked[RankOf(target)])
    ensures InClosedBucket(bounds, s, StopBucket(s.buckets, target), At(bounds, s, target))
  {
    TargetSound(bounds, h, s, target);
    RankInStopBucket(bounds, h, s, target, ranked);
    AnswerInClosedBucket(bounds, s, target);
  }

  /** For 0 < q <= 1 the quantile lies in the closure of the non-empty bucket that contains the true
      element of rank ceil(q * n). */
  lemma QuantileInRankBucket(bounds: seq<real>, h: seq<Add>, s: Tally, q: real, ranked: seq<real>) returns (target: real, i: nat)
    requires SortedBounds(bounds) && s == Histogram(bounds, h) && 1 <= |Expand(h)| == |ranked|
    requires 0.0 < q <= 1.0 && Ranking(Expand(h), ranked)
    ensures target == TargetOf(q, |ranked|) && 0 <= RankOf(target) < |ranked|
    ensures i < |s.buckets| && s.buckets[i] > 0 && InBucket(bounds, i, ranked[RankOf(target)])
    ensures Quantile(bounds, s, q).Ok? && InClosedBucket(bounds, s, i, Quantile(bounds, s, q).value)
  {
    target := TargetOf(q, |ranked|);
    QuantileIsAt(bounds, h, s, q);
    TargetRange(q, |ranked|);
    AnswerSharesRankBucket(bounds, h, s, target, ranked);
    i := StopBucket(s.buckets, target);
  }

  // ------------------------------------------------------------------ monotonicity

  lemma {:induction false} ScanMonotone(buckets: seq<nat>, t: real, u: real, i: nat)
    requires i <= |buckets| && t <= u && (i > 0 ==> (Cumulative(buckets, i) as real) < t)
    ensures Scan(buckets, t, i) <= Scan(buckets, u, i)
    decreases |buckets| - i
  {
    if i < |buckets| && ((Cumulative(buckets, i) + buckets[i]) as real) < t {
      ScanMonotone(buckets, t, u, i + 1);
    }
  }

  lemma InterpolateMonotone(start: real, end: real, x: real, y: real, count: nat)
    requires start <= end && x <= y && count > 0
    ensures Interpolate(start, end, x, count) <= Interpolate(start, end, y, count)
  {
    DivMonotone(x, y, count as real);
    MulMono(x / count as real, y / count as real, end - start);
  }

  lemma AnswerMonotone(bounds: seq<real>, s: Tally, t: real, u: real)
    requires SortedBounds(bounds) && |s.buckets| == |bounds| + 1 && t <= u
    requires Stops(s.buckets, t) && EndsEnclose(bounds, s, StopBucket(s.buckets, t))
    requires Stops(s.buckets, u) && EndsEnclose(bounds, s, StopBucket(s.buckets, u))
    ensures At(bounds, s, t) <= At(bounds, s, u)
  {
    var i, j := StopBucket(s.buckets, t), StopBucket(s.buckets, u);
    ScanMonotone(s.buckets, t, u, 0);
    if i == j {
      if i > 0 {
        var c := Cumulative(s.buckets, i) as real;
        InterpolateMonotone(bounds[i - 1], UpperEnd(bounds, s, i), t - c, u - c, s.buckets[i]);
      }
    } else {
      AnswerInClosedBucket(bounds, s, t);
      AnswerInClosedBucket(bounds, s, u);
      assert i == j - 1 || bounds[i] <= bounds[j - 1];
    }
  }

  lemma AtMonotone(bounds: seq<real>, h: seq<Add>, s: Tally, t: real, u: real)
    requires SortedBounds(bounds) && s == Histogram(bounds, h) && 0.0 < t <= u <= |Expand(h)| as real
    ensures At(bounds, s, t) <= At(bounds, s, u)
  {
    TargetSound(bounds, h, s, t);
    TargetSound(bounds, h, s, u);
    AnswerMonotone(bounds, s, t, u);
  }

  /** Quantiles never decrease as q grows over (0, 1]. */
  lemma QuantileMonotone(bounds: seq<real>, h: seq<Add>, s: Tally, p: real, q: real)
    requires SortedBounds(bounds) && s == Histogram(bounds, h) && |Expand(h)| >= 1
    requires 0.0 < p <= q <= 1.0
    ensures Quantile(bounds, s, p).Ok? && Quantile(bounds, s, q).Ok?
    ensures Quantile(bounds, s, p).value <= Quantile(bounds, s, q).value
  {
    var n := |Expand(h)|;
    var t, u := TargetOf(p, n), TargetOf(q, n);
    QuantileIsAt(bounds, h, s, p);
    QuantileIsAt(bounds, h, s, q);
    TargetRange(p, n);
    TargetRange(q, n);
    TargetMonotone(p, q, n);
    AtMonotone(bounds, h, s, t, u);
  }

  // ------------------------------------------------------------------- q equal to zero

  /** At q == 0 the scan never moves, and the answer is min. */
  lemma QuantileAtZero(bounds: seq<real>, s: Tally)
    requires |s.buckets| == |bounds| + 1 && s.count >= 1
    ensures Quantile(bounds, s, 0.0) == Ok(Lowest(s))
  {
    assert TargetOf(0.0, s.count) == 0.0;
  }

  lemma {:induction false} FirstNonEmpty(buckets: seq<nat>, i: nat) returns (k: nat)
    requires i <= |buckets| && Cumulative(buckets, i) == 0 && Cumulative(buckets, |buckets|) > 0
    ensures i <= k < |buckets| && buckets[k] > 0 && Cumulative(buckets, k) == 0
    decreases |buckets| - i
  {
    if buckets[i] > 0 {
      k := i;
    } else {
      k := FirstNonEmpty(buckets, i + 1);
    }
  }

  /** Bucket k is the first that counts anything. */
  ghost predicate First(s: Tally, k: nat) {
    k < |s.buckets| && s.buckets[k] > 0 && Cumulative(s.buckets, k) == 0
  }

  lemma FirstCounted(bounds: seq<real>, h: seq<Add>, s: Tally) returns (k: nat)
    requires s == Histogram(bounds, h) && |Expand(h)| >= 1
    ensures First(s, k)
  {
    HistogramFaithful(bounds, h);
    AllCounted(s.buckets, Indices(v => Position(bounds, v), h));
    k := FirstNonEmpty(s.buckets, 0);
  }

  lemma {:induction false} CumulativeMonotone(buckets: seq<nat>, i: nat, j: nat)
    requires i <= j <= |buckets|
    ensures Cumulative(buckets, i) <= Cumulative(buckets, j)
  {
    if i < j {
      CumulativeMonotone(buckets, i, j - 1);
    }
  }

  lemma StopNotBefore(s: Tally, k: nat, target: real)
    requires First(s, k) && Stops(s.buckets, target)
    ensures k <= StopBucket(s.buckets, target)
  {
    var i := StopBucket(s.buckets, target);
    if i < k {
      CumulativeMonotone(s.buckets, i + 1, k);
      assert false;
    }
  }

  /** When the first counted bucket starts at or above min, no answer is below min. */
  lemma ZeroBelow(bounds: seq<real>, h: seq<Add>, s: Tally, k: nat, target: real)
    requires SortedBounds(bounds) && s == Histogram(bounds, h) && First(s, k)
    requires k == 0 || Lowest(s) <= bounds[k - 1]
    requires 0.0 < target <= |Expand(h)| as real
    ensures Lowest(s) <= At(bounds, s, target)
  {
    TargetSound(bounds, h, s, target);
    StopNotBefore(s, k, target);
    AnswerInClosedBucket(bounds, s, target);
    var i := StopBucket(s.buckets, target);
    if i > 0 {
      if k == 0 {
        var v := SomeValueIn(bounds, h, s, 0);
        ExtremesEnclose(bounds, h, s, v);
        assert i == 1 || bounds[0] <= bounds[i - 1];
      } else {
        assert i == k || bounds[k - 1] <= bounds[i - 1];
      }
    }
  }

  /** A fraction of the first counted bucket small enough to fall short of min. */
  lemma SmallFraction(start: real, end: real, low: real) returns (f: real)
    requires start < low <= end
    ensures 0.0 < f <= 1.0 && Part(start, end, f) < low
  {
    var w := end - start;
    var g := (low - start) / w;
    assert 0.0 < g <= 1.0 && g * w == low - start by {
      FractionAtMostOne(low - start, w);
    }
    f := g / 2.0;
    MulStrict(f, g, w);
  }

  /** When the first counted bucket starts below min, some small target answers below min. */
  lemma ZeroAbove(bounds: seq<real>, h: seq<Add>, s: Tally, k: nat) returns (target: real)
    requires SortedBounds(bounds) && s == Histogram(bounds, h) && First(s, k)
    requires k > 0 && bounds[k - 1] < Lowest(s)
    ensures 0.0 < target <= |Expand(h)| as real && At(bounds, s, target) < Lowest(s)
  {
    LowestBelowEnd(bounds, h, s, k);
    var f := SmallFraction(bounds[k - 1], UpperEnd(bounds, s, k), Lowest(s));
    target := TargetOf(f, s.buckets[k]);
    assert 0.0 < target <= s.buckets[k] as real by { TargetRange(f, s.buckets[k]); }
    assert target <= |Expand(h)| as real by { BucketWithinCount(bounds, h, s, k); }
    assert Stops(s.buckets, target) by { TargetSound(bounds, h, s, target); }
    assert At(bounds, s, target) == Part(bounds[k - 1], UpperEnd(bounds, s, k), f) by { AtFirst(bounds, s, k, f, target); }
  }

  lemma LowestBelowEnd(bounds: seq<real>, h: seq<Add>, s: Tally, k: nat)
    requires SortedBounds(bounds) && s == Histogram(bounds, h) && First(s, k)
    ensures Lowest(s) <= UpperEnd(bounds, s, k)
  {
    var v := SomeValueIn(bounds, h, s, k);
    ExtremesEnclose(bounds, h, s, v);
  }

  /** The point that a fraction of the way leads to. */
  function Part(start: real, end: real, f: real): real {
    start + (end - start) * f
  }

  /** A target inside the first counted bucket is answered by that fraction of the bucket. */
  lemma AtFirst(bounds: seq<real>, s: Tally, k: nat, f: real, target: real)
    requires |s.buckets| == |bounds| + 1 && First(s, k) && k > 0 && target == TargetOf(f, s.buckets[k])
    requires 0.0 < target <= s.buckets[k] as real && Stops(s.buckets, target)
    ensures At(bounds, s, target) == Part(bounds[k - 1], UpperEnd(bounds, s, k), f)
  {
    StopAtFirst(s, k, target);
    assert At(bounds, s, target) == Interpolate(bounds[k - 1], UpperEnd(bounds, s, k), target, s.buckets[k]);
    InterpolateFraction(bounds[k - 1], UpperEnd(bounds, s, k), f, s.buckets[k], target);
  }

  lemma InterpolateFraction(start: real, end: real, f: real, count: nat, target: real)
    requires count > 0 && target == TargetOf(f, count)
    ensures Interpolate(start, end, target, count) == Part(start, end, f)
  {
    assert target / count as real == f;
  }

  lemma StopAtFirst(s: Tally, k: nat, target: real)
    requires First(s, k) && 0.0 < target <= s.buckets[k] as real && Stops(s.buckets, target)
    ensures StopBucket(s.buckets, target) == k
  {
    StopNotBefore(s, k, target);
    var i := StopBucket(s.buckets, target);
    if i > k {
      CumulativeMonotone(s.buckets, k + 1, i);
      assert false;
    }
  }

  lemma BucketWithinCount(bounds: seq<real>, h: seq<Add>, s: Tally, k: nat)
    requires s == Histogram(bounds, h) && k < |s.buckets|
    ensures s.buckets[k] <= |Expand(h)|
  {
    HistogramFaithful(bounds, h);
    AllCounted(s.buckets, Indices(v => Position(bounds, v), h));
    CumulativeMonotone(s.buckets, k + 1, |s.buckets|);
  }

  lemma QuantileOfTarget(target: real, n: nat) returns (q: real)
    requires 0.0 < target <= n as real
    ensures 0.0 < q <= 1.0 && TargetOf(q, n) == target
  {
    q := target / n as real;
    FractionAtMostOne(target, n as real);
  }

  /** Monotonicity extends to q == 0 exactly when the first counted bucket is the lowest one or
      starts no lower than min: otherwise a small positive q answers below the answer at zero. */
  lemma MonotoneAtZeroIff(bounds: seq<real>, h: seq<Add>, s: Tally) returns (k: nat)
    requires SortedBounds(bounds) && s == Histogram(bounds, h) && |Expand(h)| >= 1
    ensures First(s, k) && Quantile(bounds, s, 0.0).Ok?
    ensures (forall q :: 0.0 < q <= 1.0 ==>
               Quantile(bounds, s, q).Ok? && Quantile(bounds, s, 0.0).value <= Quantile(bounds, s, q).value)
            <==> k == 0 || Lowest(s) <= bounds[k - 1]
  {
    Totals(|bounds| + 1, v => Position(bounds, v), h);
    QuantileAtZero(bounds, s);
    k := FirstCounted(bounds, h, s);
    if k == 0 || Lowest(s) <= bounds[k - 1] {
      forall q | 0.0 < q <= 1.0
        ensures Quantile(bounds, s, q).Ok? && Lowest(s) <= Quantile(bounds, s, q).value
      {
        TargetRange(q, |Expand(h)|);
        QuantileIsAt(bounds, h, s, q);
        ZeroBelow(bounds, h, s, k, TargetOf(q, |Expand(h)|));
      }
    } else {
      var target := ZeroAbove(bounds, h, s, k);
      var q := QuantileOfTarget(target, |Expand(h)|);
      QuantileIsAt(bounds, h, s, q);
    }
  }
}
