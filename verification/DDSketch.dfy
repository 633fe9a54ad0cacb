/** `DDSketchImpl`: logarithmic buckets and merging.

    Doubles are reals. A sketch is compared with the history of `add` calls that built it; an `add`
    may carry any count, including zero, which still moves min and max. */
module DDSketch {
  import opened Wrappers
  import opened OrderStatistics
  import opened Samples
  import opened CommutativeFold
  import opened BucketScan

  /** Everything a sketch stores besides alpha. */
  datatype Tally = Tally(
    counts: map<int, nat>, sums: map<int, real>,
    totalCount: nat, totalSum: real, min: Option<real>, max: Option<real>)

  const EMPTY := Tally(map[], map[], 0, 0.0, None, None)

  function CountAt(counts: map<int, nat>, i: int): nat {
    if i in counts then counts[i] else 0
  }

  function SumAt(sums: map<int, real>, i: int): real {
    if i in sums then sums[i] else 0.0
  }

  /** add(value, count) with the value in bucket i. */
  function AddedAt(s: Tally, i: int, a: Add): Tally {
    Tally(s.counts[i := CountAt(s.counts, i) + a.count], s.sums[i := SumAt(s.sums, i) + Weight(a)],
          s.totalCount + a.count, s.totalSum + Weight(a),
          Lower(s.min, Some(a.value)), Higher(s.max, Some(a.value)))
  }

  /** Which bucket a value belongs to. */
  type Index = real -> int

  function Added(index: Index, s: Tally, a: Add): Tally {
    AddedAt(s, index(a.value), a)
  }

  function MergedCounts(a: map<int, nat>, b: map<int, nat>): map<int, nat> {
    map i | i in a.Keys + b.Keys :: CountAt(a, i) + CountAt(b, i)
  }

  function MergedSums(a: map<int, real>, b: map<int, real>): map<int, real> {
    map i | i in a.Keys + b.Keys :: SumAt(a, i) + SumAt(b, i)
  }

  function Merged(a: Tally, b: Tally): Tally {
    Tally(MergedCounts(a.counts, b.counts), MergedSums(a.sums, b.sums),
          a.totalCount + b.totalCount, a.totalSum + b.totalSum, Lower(a.min, b.min), Higher(a.max, b.max))
  }

  /** The sketch that a history of add calls builds. */
  ghost function Build(index: Index, h: seq<Add>): Tally
    decreases |h|
  {
    if h == [] then EMPTY else Added(index, Build(index, h[..|h| - 1]), h[|h| - 1])
  }

  // ------------------------------------------------------------------ mergeability

  lemma MergedCountsAssociate(a: map<int, nat>, b: map<int, nat>, c: map<int, nat>)
    ensures MergedCounts(MergedCounts(a, b), c) == MergedCounts(a, MergedCounts(b, c))
  {
    var l, r := MergedCounts(MergedCounts(a, b), c), MergedCounts(a, MergedCounts(b, c));
    assert l.Keys == r.Keys;
    forall i | i in l ensures l[i] == r[i] {
    }
  }

  lemma MergedSumsAssociate(a: map<int, real>, b: map<int, real>, c: map<int, real>)
    ensures MergedSums(MergedSums(a, b), c) == MergedSums(a, MergedSums(b, c))
  {
    var l, r := MergedSums(MergedSums(a, b), c), MergedSums(a, MergedSums(b, c));
    assert l.Keys == r.Keys;
    forall i | i in l ensures l[i] == r[i] {
    }
  }

  lemma MergedAssociates(a: Tally, b: Tally, c: Tally)
    ensures Merged(Merged(a, b), c) == Merged(a, Merged(b, c))
  {
    MergedCountsAssociate(a.counts, b.counts, c.counts);
    MergedSumsAssociate(a.sums, b.sums, c.sums);
  }

  lemma MergedCommutes(a: Tally, b: Tally)
    ensures Merged(a, b) == Merged(b, a)
  {
    assert MergedCounts(a.counts, b.counts) == MergedCounts(b.counts, a.counts);
    assert MergedSums(a.sums, b.sums) == MergedSums(b.sums, a.sums);
  }

  lemma MergedUnit(a: Tally)
    ensures Merged(a, EMPTY) == a
  {
    assert MergedCounts(a.counts, map[]) == a.counts;
    assert MergedSums(a.sums, map[]) == a.sums;
  }

  lemma MergeOneBucket(counts: map<int, nat>, sums: map<int, real>, i: int, c: nat, w: real)
    ensures MergedCounts(counts, map[i := c]) == counts[i := CountAt(counts, i) + c]
    ensures MergedSums(sums, map[i := w]) == sums[i := SumAt(sums, i) + w]
  {
  }

  lemma AddedIsMerge(s: Tally, i: int, a: Add)
    ensures AddedAt(s, i, a) == Merged(s, AddedAt(EMPTY, i, a))
  {
    MergeOneBucket(s.counts, s.sums, i, a.count, Weight(a));
  }

  lemma TallyMonoid()
    ensures Monoid((t: Tally) => true, Merged, EMPTY)
  {
    forall a ensures Merged(a, EMPTY) == a {
      MergedUnit(a);
    }
    forall a, b ensures Merged(a, b) == Merged(b, a) {
      MergedCommutes(a, b);
    }
    forall a, b, c ensures Merged(Merged(a, b), c) == Merged(a, Merged(b, c)) {
      MergedAssociates(a, b, c);
    }
  }

  lemma {:induction false} BuildIsFold(index: Index, h: seq<Add>)
    ensures Build(index, h) == Fold(Merged, EMPTY, a => Added(index, EMPTY, a), h)
    decreases |h|
  {
    if h != [] {
      var h', x := h[..|h| - 1], h[|h| - 1];
      BuildIsFold(index, h');
      AddedIsMerge(Build(index, h'), index(x.value), x);
    }
  }

  /** Merging the sketches of g and h gives the sketch of every value of both, fed in any order. */
  lemma Mergeability(index: Index, g: seq<Add>, h: seq<Add>, all: seq<Add>)
    requires multiset(all) == multiset(g) + multiset(h)
    ensures Build(index, all) == Merged(Build(index, g), Build(index, h))
  {
    BuildIsFold(index, g);
    BuildIsFold(index, h);
    BuildIsFold(index, all);
    TallyMonoid();
    FoldParts((t: Tally) => true, Merged, EMPTY, a => Added(index, EMPTY, a), g, h, all);
  }

  // ------------------------------------------------------------- what the buckets hold

  /** The bucket index of every added value. */
  ghost function Indices(index: Index, h: seq<Add>): seq<int> {
    Map(index, Expand(h))
  }

  lemma IndicesLast(index: Index, h: seq<Add>)
    requires h != []
    ensures Indices(index, h) == Indices(index, h[..|h| - 1]) + Repeat(index(h[|h| - 1].value), h[|h| - 1].count)
  {
    ExpandLast(h);
  }

  lemma AddedCounts(s: Tally, i: int, a: Add, k: int)
    ensures CountAt(AddedAt(s, i, a).counts, k) == CountAt(s.counts, k) + if k == i then a.count else 0
    ensures k in AddedAt(s, i, a).counts <==> k in s.counts || k == i
  {
  }

  lemma {:induction false} BucketCountOf(index: Index, h: seq<Add>, k: int)
    ensures CountAt(Build(index, h).counts, k) == CountOf(Indices(index, h), k)
    decreases |h|
  {
    if h != [] {
      var h', x := h[..|h| - 1], h[|h| - 1];
      BucketCountOf(index, h', k);
      IndicesLast(index, h);
      CountOfAppend(Indices(index, h'), Repeat(index(x.value), x.count), k);
      CountOfRepeat(index(x.value), x.count, k);
      AddedCounts(Build(index, h'), index(x.value), x, k);
    }
  }

  lemma {:induction false} BucketPresent(index: Index, h: seq<Add>, j: nat)
    requires j < |h|
    ensures index(h[j].value) in Build(index, h).counts
    decreases |h|
  {
    var h', x := h[..|h| - 1], h[|h| - 1];
    AddedCounts(Build(index, h'), index(x.value), x, index(h[j].value));
    if j < |h| - 1 {
      BucketPresent(index, h', j);
      assert h'[j] == h[j];
    }
  }

  lemma BuildFaithful(index: Index, h: seq<Add>)
    ensures var counts := Build(index, h).counts; Faithful(counts, Keys(counts), Indices(index, h))
  {
    var counts := Build(index, h).counts;
    var keys, indices := Keys(counts), Indices(index, h);
    forall i | 0 <= i < |keys| ensures keys[i] in counts && counts[keys[i]] == CountOf(indices, keys[i]) {
      assert keys[i] in keys;
      BucketCountOf(index, h, keys[i]);
    }
    forall k | k in indices ensures k in keys {
      var i :| 0 <= i < |indices| && indices[i] == k;
      var j := ExpandMember(h, i);
      BucketPresent(index, h, j);
    }
  }

  /** The scan never runs off the end, and never stops in an empty bucket. */
  lemma BuildStops(index: Index, h: seq<Add>, counts: map<int, nat>, keys: seq<int>, target: nat)
    requires target < |Expand(h)| && counts == Build(index, h).counts && keys == Keys(counts)
    ensures Stops(counts, keys, target)
    ensures Encloses(Indices(index, h), StopBucket(counts, keys, target), target)
  {
    var indices := Indices(index, h);
    assert Lists(keys, counts) && Cumulative(counts, keys, |keys|) == |indices| by {
      BuildFaithful(index, h);
      AllCounted(counts, keys, indices);
    }
    ScanInside(counts, keys, target);
    assert Encloses(indices, StopBucket(counts, keys, target), target) by {
      BuildFaithful(index, h);
      RankInStop(counts, keys, indices, target);
    }
  }

  lemma {:induction false} Totals(index: Index, h: seq<Add>)
    ensures Build(index, h).totalCount == |Expand(h)|
    ensures Build(index, h).counts.Keys == Build(index, h).sums.Keys
    ensures h != [] ==> Build(index, h).min.Some? && Build(index, h).max.Some?
    decreases |h|
  {
    if h != [] {
      Totals(index, h[..|h| - 1]);
      ExpandLast(h);
    }
  }

  lemma AddedExtremes(s: Tally, b: int, h: seq<Add>, low: nat, high: nat) returns (i: nat, j: nat)
    requires low < |h| - 1 && high < |h| - 1 && s.min == Some(h[low].value) && s.max == Some(h[high].value)
    requires forall k :: 0 <= k < |h| - 1 ==> h[low].value <= h[k].value <= h[high].value
    ensures i < |h| && j < |h|
    ensures AddedAt(s, b, h[|h| - 1]).min == Some(h[i].value) && AddedAt(s, b, h[|h| - 1]).max == Some(h[j].value)
    ensures forall k :: 0 <= k < |h| ==> h[i].value <= h[k].value <= h[j].value
  {
    var n := |h| - 1;
    i, j := if h[n].value < h[low].value then n else low, if h[n].value > h[high].value then n else high;
  }

  /** min and max are the least and the greatest value of any add call, whatever its count. */
  lemma {:induction false} Extremes(index: Index, h: seq<Add>) returns (i: nat, j: nat)
    requires h != []
    ensures i < |h| && j < |h|
    ensures Build(index, h).min == Some(h[i].value) && Build(index, h).max == Some(h[j].value)
    ensures forall k :: 0 <= k < |h| ==> h[i].value <= h[k].value <= h[j].value
    decreases |h|
  {
    var n := |h| - 1;
    if n == 0 {
      assert Build(index, h[..0]) == EMPTY;
      i, j := 0, 0;
    } else {
      i, j := Extremes(index, h[..n]);
      assert forall k :: 0 <= k < n ==> h[..n][k] == h[k];
      i, j := AddedExtremes(Build(index, h[..n]), index(h[n].value), h, i, j);
    }
  }
}
