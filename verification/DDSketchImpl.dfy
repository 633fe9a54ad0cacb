/** The mutable DDSketch. `history` records the add calls; every method keeps the fields equal to the
    sketch of that history, so the results about `Sketch` apply to the object at all times. */
module DDSketchObject {
  import opened Wrappers
  import opened RealPower
  import opened OrderStatistics
  import opened Samples
  import opened HistogramErrors
  import opened BucketScan
  import opened DDSketch
  import opened DDQuantile

  datatype Bucket = Bucket(lower: real, upper: real, count: nat)

  function Exported(alpha: real, counts: map<int, nat>, k: int): Bucket {
    Bucket(Edge(alpha, k), Edge(alpha, k + 1), CountAt(counts, k))
  }

  lemma EdgeMonotone(alpha: real, i: int, j: int)
    requires alpha > 0.0 && i <= j
    ensures Edge(alpha, i) <= Edge(alpha, j)
  {
    PowMonotone(1.0 + alpha, i, j);
  }

  lemma ExportedCount(alpha: real, h: seq<Add>, s: Tally, k: int)
    requires alpha > 0.0 && Positive(h) && s == Sketch(alpha, h)
    ensures var b := Exported(alpha, s.counts, k); b.count == CountIn(Expand(h), b.lower, b.upper)
  {
    BucketCountIsIntervalCount(alpha, h, k);
  }

  lemma SketchAppend(alpha: real, h: seq<Add>, a: Add)
    requires alpha > 0.0 && a.value > 0.0
    ensures Sketch(alpha, h + [a]) == AddedAt(Sketch(alpha, h), BucketIndex(alpha, a.value), a)
  {
    assert (h + [a])[..|h|] == h;
  }

  lemma SketchConcat(alpha: real, g: seq<Add>, h: seq<Add>)
    ensures Sketch(alpha, g + h) == Merged(Sketch(alpha, g), Sketch(alpha, h))
  {
    Mergeability(v => IndexOf(alpha, v), g, h, g + h);
  }

  lemma MergeKeepsValid(alpha: real, g: seq<Add>, h: seq<Add>, a: Tally, b: Tally, m: Tally)
    requires a == Sketch(alpha, g) && b == Sketch(alpha, h) && m == Merged(a, b) && Positive(g) && Positive(h)
    ensures Positive(g + h) && m == Sketch(alpha, g + h)
  {
    SketchConcat(alpha, g, h);
  }

  lemma SameKeys(alpha: real, h: seq<Add>, s: Tally)
    requires s == Sketch(alpha, h)
    ensures s.counts.Keys == s.sums.Keys
  {
    Totals(v => IndexOf(alpha, v), h);
  }

  /** The loop of merge over the first n keys of the other sketch. */
  ghost function CountsUpTo(a: map<int, nat>, b: map<int, nat>, keys: seq<int>, n: nat): map<int, nat>
    requires n <= |keys| && forall k :: k in keys ==> k in b
  {
    if n == 0 then a
    else
      var m := CountsUpTo(a, b, keys, n - 1);
      m[keys[n - 1] := CountAt(m, keys[n - 1]) + b[keys[n - 1]]]
  }

  ghost function SumsUpTo(a: map<int, real>, b: map<int, real>, keys: seq<int>, n: nat): map<int, real>
    requires n <= |keys| && forall k :: k in keys ==> k in b
  {
    if n == 0 then a
    else
      var m := SumsUpTo(a, b, keys, n - 1);
      m[keys[n - 1] := SumAt(m, keys[n - 1]) + b[keys[n - 1]]]
  }

  lemma {:induction false} CountsUpToAt(a: map<int, nat>, b: map<int, nat>, keys: seq<int>, n: nat, k: int)
    requires n <= |keys| && (forall k :: k in keys ==> k in b) && forall i, j :: 0 <= i < j < |keys| ==> keys[i] < keys[j]
    ensures k in CountsUpTo(a, b, keys, n) <==> k in a || k in keys[..n]
    ensures CountAt(CountsUpTo(a, b, keys, n), k) == CountAt(a, k) + if k in keys[..n] then b[k] else 0
  {
    if n > 0 {
      CountsUpToAt(a, b, keys, n - 1, k);
      assert keys[..n] == keys[..n - 1] + [keys[n - 1]];
    }
  }

  lemma {:induction false} SumsUpToAt(a: map<int, real>, b: map<int, real>, keys: seq<int>, n: nat, k: int)
    requires n <= |keys| && (forall k :: k in keys ==> k in b) && forall i, j :: 0 <= i < j < |keys| ==> keys[i] < keys[j]
    ensures k in SumsUpTo(a, b, keys, n) <==> k in a || k in keys[..n]
    ensures SumAt(SumsUpTo(a, b, keys, n), k) == SumAt(a, k) + if k in keys[..n] then b[k] else 0.0
  {
    if n > 0 {
      SumsUpToAt(a, b, keys, n - 1, k);
      assert keys[..n] == keys[..n - 1] + [keys[n - 1]];
    }
  }

  lemma CountsMerged(a: map<int, nat>, b: map<int, nat>, keys: seq<int>)
    requires (forall k :: k in keys <==> k in b) && forall i, j :: 0 <= i < j < |keys| ==> keys[i] < keys[j]
    ensures CountsUpTo(a, b, keys, |keys|) == MergedCounts(a, b)
  {
    assert keys[..|keys|] == keys;
    var l, r := CountsUpTo(a, b, keys, |keys|), MergedCounts(a, b);
    forall k ensures k in l <==> k in r {
      CountsUpToAt(a, b, keys, |keys|, k);
    }
    forall k | k in l ensures l[k] == r[k] {
      CountsUpToAt(a, b, keys, |keys|, k);
    }
    assert l.Keys == r.Keys;
  }

  lemma SumsMerged(a: map<int, real>, b: map<int, real>, keys: seq<int>)
    requires (forall k :: k in keys <==> k in b) && forall i, j :: 0 <= i < j < |keys| ==> keys[i] < keys[j]
    ensures SumsUpTo(a, b, keys, |keys|) == MergedSums(a, b)
  {
    assert keys[..|keys|] == keys;
    var l, r := SumsUpTo(a, b, keys, |keys|), MergedSums(a, b);
    forall k ensures k in l <==> k in r {
      SumsUpToAt(a, b, keys, |keys|, k);
    }
    forall k | k in l ensures l[k] == r[k] {
      SumsUpToAt(a, b, keys, |keys|, k);
    }
    assert l.Keys == r.Keys;
  }

  /** The bucket loop of merge over the listed keys. */
  method MergeListed(counts: map<int, nat>, sums: map<int, real>, theirs: map<int, nat>, theirSums: map<int, real>, keys: seq<int>)
    returns (c: map<int, nat>, s: map<int, real>)
    requires (forall k :: k in keys <==> k in theirs) && (forall k :: k in keys <==> k in theirSums)
    requires forall i, j :: 0 <= i < j < |keys| ==> keys[i] < keys[j]
    ensures c == MergedCounts(counts, theirs) && s == MergedSums(sums, theirSums)
  {
    c, s := counts, sums;
    for n := 0 to |keys|
      invariant c == CountsUpTo(counts, theirs, keys, n)
      invariant s == SumsUpTo(sums, theirSums, keys, n)
    {
      var i := keys[n];
      c := c[i := CountAt(c, i) + theirs[i]];
      s := s[i := SumAt(s, i) + theirSums[i]];
    }
    CountsMerged(counts, theirs, keys);
    SumsMerged(sums, theirSums, keys);
  }

  /** `sums_.at(idx)` is defined because both maps have the same keys. */
  method MergeBuckets(counts: map<int, nat>, sums: map<int, real>, theirs: map<int, nat>, theirSums: map<int, real>)
    returns (c: map<int, nat>, s: map<int, real>)
    requires theirs.Keys == theirSums.Keys
    ensures c == MergedCounts(counts, theirs) && s == MergedSums(sums, theirSums)
  {
    var keys := Keys(theirs);
    assert forall k :: k in theirs <==> k in theirs.Keys;
    assert forall k :: k in theirSums <==> k in theirSums.Keys;
    c, s := MergeListed(counts, sums, theirs, theirSums, keys);
  }

  /** The export loop of buckets. */
  method ExportAll(alpha: real, counts: map<int, nat>, keys: seq<int>) returns (buckets: seq<Bucket>)
    ensures |buckets| == |keys|
    ensures forall i :: 0 <= i < |keys| ==> buckets[i] == Exported(alpha, counts, keys[i])
  {
    buckets := [];
    for n := 0 to |keys|
      invariant |buckets| == n
      invariant forall i :: 0 <= i < n ==> buckets[i] == Exported(alpha, counts, keys[i])
    {
      buckets := buckets + [Exported(alpha, counts, keys[n])];
    }
  }

  /** The bucket is the interval between two neighbouring powers of 1 + alpha. */
  ghost predicate PowerInterval(alpha: real, b: Bucket) {
    exists k :: b.lower == Edge(alpha, k) && b.upper == Edge(alpha, k + 1)
  }

  ghost predicate Covered(buckets: seq<Bucket>, v: real) {
    exists i :: 0 <= i < |buckets| && buckets[i].lower <= v < buckets[i].upper
  }

  /** Exported buckets are intervals between powers of 1 + alpha, disjoint and in order; each counts
      exactly the added values in it, and together they hold every added value. */
  ghost predicate Describes(alpha: real, buckets: seq<Bucket>, values: seq<real>) {
    && (forall i :: 0 <= i < |buckets| ==> PowerInterval(alpha, buckets[i]))
    && (forall i :: 0 <= i < |buckets| ==> buckets[i].count == CountIn(values, buckets[i].lower, buckets[i].upper))
    && (forall i, j :: 0 <= i < j < |buckets| ==> buckets[i].upper <= buckets[j].lower)
    && (forall v :: v in values ==> Covered(buckets, v))
  }

  /** The bucket of an added value is among the keys. */
  lemma ValueHasKey(alpha: real, h: seq<Add>, s: Tally, v: real) returns (k: int)
    requires alpha > 0.0 && Positive(h) && s == Sketch(alpha, h) && v in Expand(h)
    ensures k in s.counts && Edge(alpha, k) <= v < Edge(alpha, k + 1)
  {
    var i :| 0 <= i < |Expand(h)| && Expand(h)[i] == v;
    var j := ExpandMember(h, i);
    BucketPresent(v => IndexOf(alpha, v), h, j);
    k := IndexOf(alpha, v);
    BucketIndexUnique(alpha, v, k);
  }

  lemma ExportCovers(alpha: real, h: seq<Add>, s: Tally, keys: seq<int>, buckets: seq<Bucket>, v: real)
    requires alpha > 0.0 && Positive(h) && s == Sketch(alpha, h) && v in Expand(h) && forall k :: k in s.counts ==> k in keys
    requires |buckets| == |keys| && forall i :: 0 <= i < |keys| ==> buckets[i] == Exported(alpha, s.counts, keys[i])
    ensures Covered(buckets, v)
  {
    var k := ValueHasKey(alpha, h, s, v);
    var i :| 0 <= i < |keys| && keys[i] == k;
    assert buckets[i].lower <= v < buckets[i].upper;
  }

  lemma ExportDescribes(alpha: real, h: seq<Add>, s: Tally, keys: seq<int>, buckets: seq<Bucket>)
    requires alpha > 0.0 && Positive(h) && s == Sketch(alpha, h)
    requires Lists(keys, s.counts) && forall k :: k in s.counts ==> k in keys
    requires |buckets| == |keys| && forall i :: 0 <= i < |keys| ==> buckets[i] == Exported(alpha, s.counts, keys[i])
    ensures Describes(alpha, buckets, Expand(h))
  {
    forall i | 0 <= i < |buckets|
      ensures PowerInterval(alpha, buckets[i])
      ensures buckets[i].count == CountIn(Expand(h), buckets[i].lower, buckets[i].upper)
    {
      assert buckets[i].lower == Edge(alpha, keys[i]) && buckets[i].upper == Edge(alpha, keys[i] + 1);
      ExportedCount(alpha, h, s, keys[i]);
    }
    forall i, j | 0 <= i < j < |buckets| ensures buckets[i].upper <= buckets[j].lower {
      EdgeMonotone(alpha, keys[i] + 1, keys[j]);
    }
    forall v | v in Expand(h) ensures Covered(buckets, v) {
      ExportCovers(alpha, h, s, keys, buckets, v);
    }
  }

  /** The scan loop of quantile. */
  method FindBucket(counts: map<int, nat>, keys: seq<int>, target: nat) returns (i: nat, cumulative: nat)
    requires Lists(keys, counts)
    ensures i == Scan(counts, keys, target, 0) && cumulative == Cumulative(counts, keys, i)
  {
    cumulative, i := 0, 0;
    while i < |keys| && cumulative + counts[keys[i]] <= target
      invariant i <= |keys| && cumulative == Cumulative(counts, keys, i) <= target
      invariant Scan(counts, keys, target, 0) == Scan(counts, keys, target, i)
    {
      cumulative := cumulative + counts[keys[i]];
      i := i + 1;
    }
  }

  class DDSketchImpl {
    const alpha: real
    var counts: map<int, nat>
    var sums: map<int, real>
    var totalCount: nat
    var totalSum: real
    var min: Option<real>
    var max: Option<real>
    ghost var history: seq<Add>

    ghost function State(): Tally
      reads this
    {
      Tally(counts, sums, totalCount, totalSum, min, max)
    }

    ghost predicate Valid()
      reads this
    {
      0.0 < alpha < 1.0 && Positive(history) && State() == Sketch(alpha, history)
    }

    constructor (alpha: real)
      requires 0.0 < alpha < 1.0
      ensures Valid() && this.alpha == alpha && history == []
    {
      this.alpha := alpha;
      counts, sums, totalCount, totalSum, min, max := map[], map[], 0, 0.0, None, None;
      history := [];
    }

    static method Create(alpha: real) returns (r: Result<DDSketchImpl>)
      ensures r.Ok? <==> 0.0 < alpha < 1.0
      ensures r.Ok? ==> fresh(r.value) && r.value.Valid() && r.value.alpha == alpha && r.value.history == []
      ensures r.Err? ==> r.error == InvalidArgument
    {
      if alpha <= 0.0 || alpha >= 1.0 {
        return Err(InvalidArgument);
      }
      var s := new DDSketchImpl(alpha);
      r := Ok(s);
    }

    method Add(value: real, count: nat) returns (r: Result<()>)
      requires Valid()
      modifies this
      ensures Valid()
      ensures r == if value > 0.0 then Ok(()) else Err(InvalidArgument)
      ensures history == if r.Ok? then old(history) + [Samples.Add(value, count)] else old(history)
    {
      if value <= 0.0 {
        return Err(InvalidArgument);
      }
      Record(BucketIndex(alpha, value), value, count);
      SketchAppend(alpha, history, Samples.Add(value, count));
      history := history + [Samples.Add(value, count)];
      r := Ok(());
    }

    /** The field updates of add. */
    method Record(i: int, value: real, count: nat)
      modifies this`counts, this`sums, this`totalCount, this`totalSum, this`min, this`max
      ensures State() == AddedAt(old(State()), i, Samples.Add(value, count))
    {
      var weight := Weight(Samples.Add(value, count));
      counts := counts[i := (if i in counts then counts[i] else 0) + count];
      sums := sums[i := (if i in sums then sums[i] else 0.0) + weight];
      totalCount := totalCount + count;
      totalSum := totalSum + weight;
      if min.None? || value < min.value {
        min := Some(value);
      }
      if max.None? || value > max.value {
        max := Some(value);
      }
    }

    method Merge(other: DDSketchImpl) returns (r: Result<()>)
      requires Valid() && other.Valid()
      modifies this
      ensures Valid()
      ensures r == if alpha == other.alpha then Ok(()) else Err(InvalidArgument)
      ensures history == if r.Ok? then old(history) + old(other.history) else old(history)
    {
      if alpha != other.alpha {
        return Err(InvalidArgument);
      }
      MergeSame(other);
      r := Ok(());
    }

    method MergeSame(other: DDSketchImpl)
      requires Valid() && other.Valid() && alpha == other.alpha
      modifies this
      ensures Valid() && history == old(history) + old(other.history)
    {
      ghost var mine, added, a, b := history, other.history, State(), other.State();
      ghost var both, m := mine + added, Merged(a, b);
      assert b.counts.Keys == b.sums.Keys by { SameKeys(alpha, added, b); }
      assert m == Sketch(alpha, both) && Positive(both) by { MergeKeepsValid(alpha, mine, added, a, b, m); }
      Absorb(other);
      assert State() == m;
      history := both;
    }

    /** The field updates of merge; `other` may be this sketch itself. */
    method Absorb(other: DDSketchImpl)
      requires other.counts.Keys == other.sums.Keys
      modifies this`counts, this`sums, this`totalCount, this`totalSum, this`min, this`max
      ensures State() == Merged(old(State()), old(other.State()))
    {
      counts, sums := MergeBuckets(counts, sums, other.counts, other.sums);
      totalCount := totalCount + other.totalCount;
      totalSum := totalSum + other.totalSum;
      if min.None? || (other.min.Some? && other.min.value < min.value) {
        min := other.min;
      }
      if max.None? || (other.max.Some? && other.max.value > max.value) {
        max := other.max;
      }
    }

    method Quantile(q: real) returns (r: Result<real>)
      requires Valid()
      ensures r == DDQuantile.Quantile(alpha, State(), q)
    {
      if q < 0.0 || q > 1.0 {
        return Err(InvalidArgument);
      }
      if totalCount == 0 {
        return Err(EmptyHistogram);
      }
      if totalCount == 1 {
        return Present(min);
      }
      r := EstimateRank(Keys(counts), Target(totalCount, q));
    }

    /** The scan and the interpolation of quantile. */
    method EstimateRank(keys: seq<int>, target: nat) returns (r: Result<real>)
      requires Lists(keys, counts)
      ensures r == Estimate(alpha, counts, keys, max, target)
    {
      var i, cumulative := FindBucket(counts, keys, target);
      if i == |keys| {
        return Present(max);
      }
      r := Ok(Inside(alpha, keys[i], target - cumulative, counts[keys[i]]));
    }

    method Buckets() returns (buckets: seq<Bucket>)
      requires Valid()
      ensures |buckets| == |counts| && Describes(alpha, buckets, Expand(history))
    {
      var keys := Keys(counts);
      buckets := ExportAll(alpha, counts, keys);
      KeysLength(counts);
      ExportDescribes(alpha, history, State(), keys, buckets);
    }

    method Clear()
      requires Valid()
      modifies this
      ensures Valid() && history == []
    {
      counts, sums, totalCount, totalSum, min, max := map[], map[], 0, 0.0, None, None;
      history := [];
    }
  }
}
