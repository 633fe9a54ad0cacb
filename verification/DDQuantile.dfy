/** The DDSketch quantile: its relative error, its monotonicity, and what its buckets count. */
module DDQuantile {
  import opened Wrappers
  import opened RealArithmetic
  import opened RealPower
  import opened OrderStatistics
  import opened Samples
  import opened HistogramErrors
  import opened BucketScan
  import opened DDSketch

  /** The lower edge of bucket k. */
  function Edge(alpha: real, k: int): real {
    if alpha > 0.0 then Pow(1.0 + alpha, k) else 0.0
  }

  function Interpolate(start: real, end: real, offset: nat, count: nat): real {
    if count == 0 then start else start + (offset as real / count as real) * (end - start)
  }

  /** The interpolated answer inside bucket k. */
  function Inside(alpha: real, k: int, offset: nat, count: nat): real {
    Interpolate(Edge(alpha, k), Edge(alpha, k + 1), offset, count)
  }

  /** The estimate for the element of rank `target`. */
  function Estimate(alpha: real, counts: map<int, nat>, keys: seq<int>, max: Option<real>, target: nat): Result<real>
    requires Lists(keys, counts)
  {
    var i := Scan(counts, keys, target, 0);
    if i == |keys| then Present(max)
    else Ok(Inside(alpha, keys[i], target - Cumulative(counts, keys, i), counts[keys[i]]))
  }

  /** static_cast<uint64_t>(q * (n - 1)) */
  function Target(n: nat, q: real): (t: nat)
    requires n >= 1 && 0.0 <= q <= 1.0
    ensures t <= n - 1
  {
    ScaledRank(q, n - 1);
    (q * (n - 1) as real).Floor
  }

  /** t is the rank floor(q * (n - 1)). */
  ghost predicate IsRank(t: nat, q: real, n: nat) {
    n >= 1 && t as real <= q * (n - 1) as real < (t + 1) as real
  }

  /** Target is that rank. */
  lemma TargetIsRank(t: nat, q: real, n: nat)
    requires n >= 1 && 0.0 <= q <= 1.0
    ensures IsRank(t, q, n) <==> t == Target(n, q)
  {
    var x := q * (n - 1) as real;
    assert x.Floor as real <= x < (x.Floor + 1) as real;
  }

  function Quantile(alpha: real, s: Tally, q: real): Result<real>
  {
    if q < 0.0 || q > 1.0 then Err(InvalidArgument)
    else if s.totalCount == 0 then Err(EmptyHistogram)
    else if s.totalCount == 1 then Present(s.min)
    else Estimate(alpha, s.counts, Keys(s.counts), s.max, Target(s.totalCount, q))
  }

  ghost predicate Positive(h: seq<Add>) {
    forall i :: 0 <= i < |h| ==> h[i].value > 0.0
  }

  function IndexOf(alpha: real, v: real): int {
    if alpha > 0.0 && v > 0.0 then BucketIndex(alpha, v) else 0
  }

  /** The state of a sketch after the add calls h. */
  ghost function Sketch(alpha: real, h: seq<Add>): Tally {
    Build(v => IndexOf(alpha, v), h)
  }

  // ------------------------------------------------------------- what the buckets hold

  lemma ExpandPositive(h: seq<Add>)
    requires Positive(h)
    ensures forall v :: v in Expand(h) ==> v > 0.0
  {
    forall v | v in Expand(h) ensures v > 0.0 {
      var i :| 0 <= i < |Expand(h)| && Expand(h)[i] == v;
      var j := ExpandMember(h, i);
    }
  }

  /** Each bucket counts exactly the added values in its interval, and a bucket that is not exported
      has none. */
  lemma BucketCountIsIntervalCount(alpha: real, h: seq<Add>, k: int)
    requires alpha > 0.0 && Positive(h)
    ensures CountAt(Sketch(alpha, h).counts, k)
         == CountIn(Expand(h), Pow(1.0 + alpha, k), Pow(1.0 + alpha, k + 1))
  {
    var f := (v: real) => IndexOf(alpha, v);
    var e := Expand(h);
    ExpandPositive(h);
    forall i | 0 <= i < |e| ensures f(e[i]) == k <==> Pow(1.0 + alpha, k) <= e[i] < Pow(1.0 + alpha, k + 1) {
      assert e[i] in e;
      BucketIndexUnique(alpha, e[i], k);
    }
    CountInInterval(f, e, k, Pow(1.0 + alpha, k), Pow(1.0 + alpha, k + 1));
    BucketCountOf(f, h, k);
  }

  // -------------------------------------------------------------------- accuracy

  function Abs(x: real): real {
    if x < 0.0 then -x else x
  }

  /** Any two points of one bucket differ by at most alpha times either of them. */
  lemma SameBucketClose(alpha: real, k: int, x: real, y: real)
    requires alpha > 0.0
    requires Edge(alpha, k) <= x < Edge(alpha, k + 1)
    requires Edge(alpha, k) <= y < Edge(alpha, k + 1)
    ensures Abs(x - y) <= alpha * y
  {
    PowStep(1.0 + alpha, k);
    CloseWithin(alpha, Pow(1.0 + alpha, k), x, y);
  }

  lemma CloseWithin(alpha: real, p: real, x: real, y: real)
    requires alpha > 0.0 && p <= x < (1.0 + alpha) * p && p <= y < (1.0 + alpha) * p
    ensures Abs(x - y) <= alpha * y
  {
    assert (1.0 + alpha) * p == p + alpha * p;
    MulMono(p, y, alpha);
  }

  lemma InterpolateInside(start: real, end: real, offset: nat, count: nat)
    requires start < end && offset < count
    ensures start <= Interpolate(start, end, offset, count) < end
  {
    FractionBelowOne(offset, count);
    Scaled(offset as real / count as real, end - start);
  }

  lemma InterpolateMonotone(start: real, end: real, x: nat, y: nat, count: nat)
    requires start < end && x <= y < count
    ensures Interpolate(start, end, x, count) <= Interpolate(start, end, y, count)
  {
    DivMonotone(x as real, y as real, count as real);
    MulMono(x as real / count as real, y as real / count as real, end - start);
  }

  lemma InsideBounds(alpha: real, k: int, x: nat, n: nat)
    requires alpha > 0.0 && x < n
    ensures Edge(alpha, k) <= Inside(alpha, k, x, n) < Edge(alpha, k + 1)
  {
    PowIncreasing(1.0 + alpha, k, k + 1);
    InterpolateInside(Edge(alpha, k), Edge(alpha, k + 1), x, n);
  }

  lemma InsideMonotone(alpha: real, k: int, x: nat, y: nat, n: nat)
    requires alpha > 0.0 && x <= y < n
    ensures Inside(alpha, k, x, n) <= Inside(alpha, k, y, n)
  {
    PowIncreasing(1.0 + alpha, k, k + 1);
    InterpolateMonotone(Edge(alpha, k), Edge(alpha, k + 1), x, y, n);
  }

  lemma EstimateInBucket(alpha: real, counts: map<int, nat>, keys: seq<int>, max: Option<real>, target: nat)
    requires alpha > 0.0 && Stops(counts, keys, target)
    ensures var r, k := Estimate(alpha, counts, keys, max, target), StopBucket(counts, keys, target);
      r.Ok? && Edge(alpha, k) <= r.value < Edge(alpha, k + 1)
  {
    var i := Scan(counts, keys, target, 0);
    InsideBounds(alpha, keys[i], target - Cumulative(counts, keys, i), counts[keys[i]]);
  }

  lemma IndexMonotone(alpha: real, h: seq<Add>)
    requires alpha > 0.0 && Positive(h)
    ensures forall x, y :: x <= y && x in Expand(h) && y in Expand(h) ==> IndexOf(alpha, x) <= IndexOf(alpha, y)
  {
    ExpandPositive(h);
    forall x, y | x <= y && x in Expand(h) && y in Expand(h) ensures IndexOf(alpha, x) <= IndexOf(alpha, y) {
      BelowBoundary(alpha, y, IndexOf(alpha, x));
    }
  }

  /** Value v lies in the interval of bucket k. */
  ghost predicate InBucket(alpha: real, k: int, v: real) {
    Edge(alpha, k) <= v < Edge(alpha, k + 1)
  }

  /** The element of rank `target` lies in the bucket whose counts enclose the rank. */
  lemma RankBucket(alpha: real, h: seq<Add>, target: nat, ranked: seq<real>, k: int)
    requires alpha > 0.0 && Positive(h) && target < |ranked| && Ranking(Expand(h), ranked)
    requires Encloses(Indices(v => IndexOf(alpha, v), h), k, target)
    ensures InBucket(alpha, k, ranked[target])
  {
    IndexMonotone(alpha, h);
    RankInBucket(v => IndexOf(alpha, v), Expand(h), ranked, target, k);
    RankedInBucket(alpha, h, ranked[target], k);
  }

  ghost predicate InStopBucket(alpha: real, counts: map<int, nat>, keys: seq<int>, target: nat, v: real)
    requires Stops(counts, keys, target)
  {
    InBucket(alpha, StopBucket(counts, keys, target), v)
  }

  lemma EstimateClose(alpha: real, counts: map<int, nat>, keys: seq<int>, max: Option<real>, target: nat, v: real)
    requires alpha > 0.0 && Stops(counts, keys, target)
    requires InStopBucket(alpha, counts, keys, target, v)
    ensures var r := Estimate(alpha, counts, keys, max, target); r.Ok? && Abs(r.value - v) <= alpha * v
  {
    EstimateInBucket(alpha, counts, keys, max, target);
    SameBucketClose(alpha, StopBucket(counts, keys, target), Estimate(alpha, counts, keys, max, target).value, v);
  }

  lemma SketchStops(alpha: real, h: seq<Add>, counts: map<int, nat>, keys: seq<int>, target: nat)
    requires target < |Expand(h)| && counts == Sketch(alpha, h).counts && keys == Keys(counts)
    ensures Stops(counts, keys, target)
    ensures Encloses(Indices(v => IndexOf(alpha, v), h), StopBucket(counts, keys, target), target)
  {
    BuildStops(v => IndexOf(alpha, v), h, counts, keys, target);
  }

  /** The scan for rank `target` stops in the bucket of the element of that rank. */
  lemma StopsAtRank(alpha: real, h: seq<Add>, counts: map<int, nat>, keys: seq<int>, target: nat, ranked: seq<real>)
    requires alpha > 0.0 && Positive(h) && target < |Expand(h)| == |ranked|
    requires Ranking(Expand(h), ranked) && counts == Sketch(alpha, h).counts && keys == Keys(counts)
    ensures Stops(counts, keys, target)
    ensures InStopBucket(alpha, counts, keys, target, ranked[target])
  {
    SketchStops(alpha, h, counts, keys, target);
    RankBucket(alpha, h, target, ranked, StopBucket(counts, keys, target));
  }

  lemma RankedInBucket(alpha: real, h: seq<Add>, v: real, k: int)
    requires alpha > 0.0 && Positive(h) && v in multiset(Expand(h)) && IndexOf(alpha, v) == k
    ensures Edge(alpha, k) <= v < Edge(alpha, k + 1)
  {
    ExpandPositive(h);
    assert v in Expand(h);
    BucketIndexUnique(alpha, v, k);
  }

  /** No add of count zero carried a value below (1 - alpha) * v. */
  ghost predicate NoLowPhantom(alpha: real, h: seq<Add>, v: real) {
    forall j :: 0 <= j < |h| && h[j].count == 0 ==> h[j].value >= v - alpha * v
  }

  /** The quantile's answer is within relative error alpha of v. */
  ghost predicate Accurate(alpha: real, s: Tally, q: real, v: real) {
    var r := Quantile(alpha, s, q);
    r.Ok? && Abs(r.value - v) <= alpha * v
  }

  lemma QuantileOfMany(alpha: real, s: Tally, q: real, target: nat, v: real)
    requires alpha > 0.0 && 0.0 <= q <= 1.0 && s.totalCount >= 2 && target == Target(s.totalCount, q)
    requires Stops(s.counts, Keys(s.counts), target) && InStopBucket(alpha, s.counts, Keys(s.counts), target, v)
    ensures Accurate(alpha, s, q, v)
  {
    EstimateClose(alpha, s.counts, Keys(s.counts), s.max, target, v);
  }

  lemma ManyAccurate(alpha: real, h: seq<Add>, q: real, ranked: seq<real>, t: nat)
    requires 0.0 < alpha < 1.0 && Positive(h) && 0.0 <= q <= 1.0
    requires 2 <= |Expand(h)| == |ranked| && Ranking(Expand(h), ranked) && IsRank(t, q, |ranked|)
    ensures t < |ranked| && Accurate(alpha, Sketch(alpha, h), q, ranked[t])
  {
    TargetIsRank(t, q, |ranked|);
    ManyAtTarget(alpha, h, Sketch(alpha, h), q, ranked);
  }

  lemma ManyAtTarget(alpha: real, h: seq<Add>, s: Tally, q: real, ranked: seq<real>)
    requires 0.0 < alpha < 1.0 && Positive(h) && 0.0 <= q <= 1.0
    requires 2 <= |Expand(h)| == |ranked| && Ranking(Expand(h), ranked) && s == Sketch(alpha, h)
    ensures Accurate(alpha, s, q, ranked[Target(|ranked|, q)])
  {
    assert s.totalCount == |ranked| by { Totals(v => IndexOf(alpha, v), h); }
    var target := Target(|ranked|, q);
    assert Stops(s.counts, Keys(s.counts), target) && InStopBucket(alpha, s.counts, Keys(s.counts), target, ranked[target]) by {
      StopsAtRank(alpha, h, s.counts, Keys(s.counts), target, ranked);
    }
    QuantileOfMany(alpha, s, q, target, ranked[target]);
  }

  lemma OneAccurate(alpha: real, h: seq<Add>, s: Tally, q: real, v: real)
    requires 0.0 < alpha < 1.0 && Positive(h) && 0.0 <= q <= 1.0
    requires |Expand(h)| == 1 && v in multiset(Expand(h)) && s == Sketch(alpha, h)
    ensures Accurate(alpha, s, q, v) <==> NoLowPhantom(alpha, h, v)
  {
    Totals(v => IndexOf(alpha, v), h);
    SingleValueAccuracy(alpha, h, v);
  }

  /** With two or more values the quantile is always within relative error alpha of the element of
      rank floor(q * (n - 1)). With one value v it is so exactly when no add of count zero carried a
      value below (1 - alpha) * v, because the single-value shortcut answers min. */
  lemma QuantileAccuracy(alpha: real, h: seq<Add>, q: real, t: nat)
    requires 0.0 < alpha < 1.0 && Positive(h) && 0.0 <= q <= 1.0 && IsRank(t, q, |Expand(h)|)
    ensures var ranked := Ranked(Expand(h));
      && t < |ranked|
      && (Accurate(alpha, Sketch(alpha, h), q, ranked[t]) <==> |ranked| >= 2 || NoLowPhantom(alpha, h, ranked[t]))
  {
    TargetIsRank(t, q, |Expand(h)|);
    RankedIsRanking(Expand(h));
    AccuracyAtRank(alpha, h, Sketch(alpha, h), q, Ranked(Expand(h)));
  }

  /** The failing input: after add(10) and add(1, 0) the sketch answers 1 for the only value 10. */
  lemma ZeroCountBreaksAccuracy(q: real)
    requires 0.0 <= q <= 1.0
    ensures var h := [Add(10.0, 1), Add(1.0, 0)];
      && Positive(h) && Expand(h) == [10.0]
      && Quantile(0.5, Sketch(0.5, h), q) == Ok(1.0)
      && !Accurate(0.5, Sketch(0.5, h), q, 10.0)
  {
    var h := [Add(10.0, 1), Add(1.0, 0)];
    var s := Sketch(0.5, h);
    assert Expand(h) == [10.0] && s.totalCount == 1 && s.min == Some(1.0) by { PhantomMinimum(h, s); }
    AnswersMin(0.5, s, q, 1.0);
  }

  lemma AnswersMin(alpha: real, s: Tally, q: real, v: real)
    requires s.totalCount == 1 && s.min == Some(v) && 0.0 <= q <= 1.0
    ensures Quantile(alpha, s, q) == Ok(v)
  {
  }

  lemma PhantomMinimum(h: seq<Add>, s: Tally)
    requires h == [Add(10.0, 1), Add(1.0, 0)] && s == Sketch(0.5, h)
    ensures Expand(h) == [10.0] && s.totalCount == 1 && s.min == Some(1.0)
  {
    assert Expand(h) == [10.0] by {
      assert h[1..][1..] == [];
      assert Repeat(10.0, 1) == [10.0] && Repeat(1.0, 0) == [];
      assert Expand(h[1..]) == Repeat(1.0, 0) + Expand(h[1..][1..]);
    }
    Totals(v => IndexOf(0.5, v), h);
    var i, j := Extremes(v => IndexOf(0.5, v), h);
    assert h[i].value <= h[1].value;
  }

  lemma AccuracyAtRank(alpha: real, h: seq<Add>, s: Tally, q: real, ranked: seq<real>)
    requires 0.0 < alpha < 1.0 && Positive(h) && 0.0 <= q <= 1.0 && s == Sketch(alpha, h)
    requires 1 <= |Expand(h)| == |ranked| && Ranking(Expand(h), ranked)
    ensures var exact := ranked[Target(|ranked|, q)];
      Accurate(alpha, s, q, exact) <==> |ranked| >= 2 || NoLowPhantom(alpha, h, exact)
  {
    if |ranked| >= 2 {
      ManyAtTarget(alpha, h, s, q, ranked);
    } else {
      assert Target(|ranked|, q) == 0;
      OneAccurate(alpha, h, s, q, ranked[0]);
    }
  }

  lemma SingleValueAccuracy(alpha: real, h: seq<Add>, v: real)
    requires 0.0 < alpha < 1.0 && Positive(h)
    requires |Expand(h)| == 1 && v in multiset(Expand(h))
    ensures Sketch(alpha, h).min.Some?
    ensures Abs(Sketch(alpha, h).min.value - v) <= alpha * v <==> NoLowPhantom(alpha, h, v)
  {
    var one := OnlyValue(h, v);
    var j, top := Extremes(v => IndexOf(alpha, v), h);
    assert h[j].value <= h[one].value;
    LowestDecides(alpha, h, v, j);
  }

  /** Every add call with a positive count carries the only value. */
  lemma OnlyValue(h: seq<Add>, v: real) returns (one: nat)
    requires |Expand(h)| == 1 && v in multiset(Expand(h))
    ensures one < |h| && h[one].value == v
    ensures forall j :: 0 <= j < |h| && h[j].count > 0 ==> h[j].value == v
  {
    one := ExpandMember(h, 0);
    assert v in Expand(h);
    forall j | 0 <= j < |h| && h[j].count > 0 ensures h[j].value == v {
      PositiveCountIsValue(h, j);
    }
  }

  lemma LowestDecides(alpha: real, h: seq<Add>, v: real, j: nat)
    requires 0.0 < alpha < 1.0 && v > 0.0 && j < |h| && h[j].value <= v
    requires forall i :: 0 <= i < |h| ==> h[j].value <= h[i].value
    requires h[j].count > 0 ==> h[j].value == v
    ensures Abs(h[j].value - v) <= alpha * v <==> NoLowPhantom(alpha, h, v)
  {
    MulPositive(alpha, v);
  }

  lemma {:induction false} PositiveCountIsValue(h: seq<Add>, j: nat)
    requires j < |h| && h[j].count > 0
    ensures h[j].value in Expand(h)
    decreases |h|
  {
    if j == 0 {
      assert Expand(h)[0] == h[0].value;
    } else {
      PositiveCountIsValue(h[1..], j - 1);
    }
  }

  // ------------------------------------------------------------------ monotonicity

  /** Higher ranks never get lower estimates. */
  lemma EstimateMonotone(alpha: real, counts: map<int, nat>, keys: seq<int>, max: Option<real>, t: nat, u: nat)
    requires alpha > 0.0 && t <= u && Stops(counts, keys, t) && Stops(counts, keys, u)
    ensures var x, y := Estimate(alpha, counts, keys, max, t), Estimate(alpha, counts, keys, max, u);
      x.Ok? && y.Ok? && x.value <= y.value
  {
    var i, j := Scan(counts, keys, t, 0), Scan(counts, keys, u, 0);
    ScanMonotone(counts, keys, t, u, 0);
    if i == j {
      InsideMonotone(alpha, keys[i], t - Cumulative(counts, keys, i), u - Cumulative(counts, keys, i), counts[keys[i]]);
    } else {
      EstimateInBucket(alpha, counts, keys, max, t);
      EstimateInBucket(alpha, counts, keys, max, u);
      PowMonotone(1.0 + alpha, keys[i] + 1, keys[j]);
    }
  }

  /** Quantiles never decrease as q grows, on all of [0, 1]. */
  lemma QuantileMonotone(alpha: real, h: seq<Add>, p: real, q: real)
    requires alpha > 0.0 && Positive(h) && 0.0 <= p <= q <= 1.0 && |Expand(h)| >= 1
    ensures var s := Sketch(alpha, h);
      var x, y := Quantile(alpha, s, p), Quantile(alpha, s, q);
      x.Ok? && y.Ok? && x.value <= y.value
  {
    Totals(v => IndexOf(alpha, v), h);
    var n := |Expand(h)|;
    if n >= 2 {
      TargetMonotone(n, p, q);
      var s := Sketch(alpha, h);
      SketchStops(alpha, h, s.counts, Keys(s.counts), Target(n, p));
      SketchStops(alpha, h, s.counts, Keys(s.counts), Target(n, q));
      ManyMonotone(alpha, s, p, q, Target(n, p), Target(n, q));
    }
  }

  lemma ManyMonotone(alpha: real, s: Tally, p: real, q: real, t: nat, u: nat)
    requires alpha > 0.0 && s.totalCount >= 2 && 0.0 <= p <= q <= 1.0
    requires t == Target(s.totalCount, p) <= u == Target(s.totalCount, q)
    requires Stops(s.counts, Keys(s.counts), t) && Stops(s.counts, Keys(s.counts), u)
    ensures var x, y := Quantile(alpha, s, p), Quantile(alpha, s, q);
      x.Ok? && y.Ok? && x.value <= y.value
  {
    EstimateMonotone(alpha, s.counts, Keys(s.counts), s.max, t, u);
  }

  lemma TargetMonotone(n: nat, p: real, q: real)
    requires n >= 1 && 0.0 <= p <= q <= 1.0
    ensures Target(n, p) <= Target(n, q)
  {
    MulMono(p, q, (n - 1) as real);
    var x, y := p * (n - 1) as real, q * (n - 1) as real;
    assert x <= y;
    assert x.Floor <= y.Floor;
  }
}
