/** `FixedBucketHistogramImpl`: counts between fixed, sorted boundaries, and merging. */
module FixedBucket {
  import opened Wrappers
  import opened OrderStatistics
  import opened Samples
  import opened CommutativeFold

  /** Everything the histogram stores besides its boundaries. */
  datatype Tally = Tally(buckets: seq<nat>, count: nat, sum: real, min: Option<real>, max: Option<real>)

  function Empty(n: nat): Tally {
    Tally(Repeat(0, n), 0, 0.0, None, None)
  }

  ghost predicate SortedBounds(bounds: seq<real>) {
    forall i, j :: 0 <= i < j < |bounds| ==> bounds[i] <= bounds[j]
  }

  /** The linear search of add, from position i. */
  function Search(bounds: seq<real>, v: real, i: nat): (r: nat)
    requires i <= |bounds|
    ensures i <= r <= |bounds|
    decreases |bounds| - i
  {
    if i < |bounds| && v >= bounds[i] then Search(bounds, v, i + 1) else i
  }

  /** Which bucket a value belongs to. */
  type Index = real -> nat

  function AddedAt(s: Tally, i: nat, a: Add): Tally {
    Tally(if i < |s.buckets| then s.buckets[i := s.buckets[i] + a.count] else s.buckets,
          s.count + a.count, s.sum + Weight(a), Lower(s.min, Some(a.value)), Higher(s.max, Some(a.value)))
  }

  function Merged(a: Tally, b: Tally): Tally {
    Tally(MergedBuckets(a.buckets, b.buckets), a.count + b.count, a.sum + b.sum, Lower(a.min, b.min), Higher(a.max, b.max))
  }

  function MergedBuckets(a: seq<nat>, b: seq<nat>): seq<nat> {
    seq(|a|, i requires 0 <= i < |a| => a[i] + if i < |b| then b[i] else 0)
  }

  /** The histogram with n buckets that a history of add calls builds. */
  ghost function Build(n: nat, index: Index, h: seq<Add>): (s: Tally)
    ensures |s.buckets| == n
    decreases |h|
  {
    if h == [] then Empty(n) else AddedAt(Build(n, index, h[..|h| - 1]), index(h[|h| - 1].value), h[|h| - 1])
  }

  // ------------------------------------------------------------------ mergeability

  lemma MergedAssociates(a: Tally, b: Tally, c: Tally)
    requires |a.buckets| == |b.buckets| == |c.buckets|
    ensures Merged(Merged(a, b), c) == Merged(a, Merged(b, c))
  {
    assert MergedBuckets(MergedBuckets(a.buckets, b.buckets), c.buckets)
        == MergedBuckets(a.buckets, MergedBuckets(b.buckets, c.buckets));
  }

  lemma MergedCommutes(a: Tally, b: Tally)
    requires |a.buckets| == |b.buckets|
    ensures Merged(a, b) == Merged(b, a)
  {
    assert MergedBuckets(a.buckets, b.buckets) == MergedBuckets(b.buckets, a.buckets);
  }

  lemma MergedUnit(a: Tally)
    ensures Merged(a, Empty(|a.buckets|)) == a
  {
    assert MergedBuckets(a.buckets, Repeat(0, |a.buckets|)) == a.buckets;
  }

  lemma AddedIsMerge(s: Tally, i: nat, a: Add)
    ensures AddedAt(s, i, a) == Merged(s, AddedAt(Empty(|s.buckets|), i, a))
  {
    var n := |s.buckets|;
    assert AddedAt(s, i, a).buckets == MergedBuckets(s.buckets, AddedAt(Empty(n), i, a).buckets);
  }

  lemma TallyMonoid(n: nat)
    ensures Monoid((t: Tally) => |t.buckets| == n, Merged, Empty(n))
  {
    var ok := (t: Tally) => |t.buckets| == n;
    forall a | ok(a) ensures Merged(a, Empty(n)) == a {
      MergedUnit(a);
    }
    forall a, b | ok(a) && ok(b) ensures Merged(a, b) == Merged(b, a) {
      MergedCommutes(a, b);
    }
    forall a, b, c | ok(a) && ok(b) && ok(c) ensures Merged(Merged(a, b), c) == Merged(a, Merged(b, c)) {
      MergedAssociates(a, b, c);
    }
  }

  lemma {:induction false} BuildIsFold(n: nat, index: Index, single: Add -> Tally, h: seq<Add>)
    requires forall a :: single(a) == AddedAt(Empty(n), index(a.value), a)
    ensures Build(n, index, h) == Fold(Merged, Empty(n), single, h)
    decreases |h|
  {
    if h != [] {
      var h', x := h[..|h| - 1], h[|h| - 1];
      BuildIsFold(n, index, single, h');
      AddedIsMerge(Build(n, index, h'), index(x.value), x);
    }
  }

  /** Merging the histograms of g and h gives the histogram of every value of both, in any order. */
  lemma Mergeability(n: nat, index: Index, g: seq<Add>, h: seq<Add>, all: seq<Add>)
    requires multiset(all) == multiset(g) + multiset(h)
    ensures Build(n, index, all) == Merged(Build(n, index, g), Build(n, index, h))
  {
    var single := (a: Add) => AddedAt(Empty(n), index(a.value), a);
    var unit := Empty(n);
    assert Fold(Merged, unit, single, all) == Merged(Fold(Merged, unit, single, g), Fold(Merged, unit, single, h)) by {
      TallyMonoid(n);
      assert |unit.buckets| == n;
      forall a ensures |single(a).buckets| == n {
        assert single(a) == AddedAt(unit, index(a.value), a);
      }
      FoldParts((t: Tally) => |t.buckets| == n, Merged, unit, single, g, h, all);
    }
    BuildIsFold(n, index, single, g);
    BuildIsFold(n, index, single, h);
    BuildIsFold(n, index, single, all);
  }

  // ------------------------------------------------------------- what the buckets hold

  ghost function Indices(index: Index, h: seq<Add>): seq<int> {
    Map(v => index(v) as int, Expand(h))
  }

  lemma IndicesLast(index: Index, h: seq<Add>)
    requires h != []
    ensures Indices(index, h) == Indices(index, h[..|h| - 1]) + Repeat(index(h[|h| - 1].value) as int, h[|h| - 1].count)
  {
    ExpandLast(h);
  }

  lemma {:induction false} BucketCountOf(n: nat, index: Index, h: seq<Add>, k: nat)
    requires k < n
    ensures Build(n, index, h).buckets[k] == CountOf(Indices(index, h), k)
    decreases |h|
  {
    if h != [] {
      var h', x := h[..|h| - 1], h[|h| - 1];
      BucketCountOf(n, index, h', k);
      IndicesLast(index, h);
      CountOfAppend(Indices(index, h'), Repeat(index(x.value) as int, x.count), k);
      CountOfRepeat(index(x.value), x.count, k);
    }
  }

  lemma {:induction false} Totals(n: nat, index: Index, h: seq<Add>)
    ensures Build(n, index, h).count == |Expand(h)|
    ensures h != [] ==> Build(n, index, h).min.Some? && Build(n, index, h).max.Some?
    decreases |h|
  {
    if h != [] {
      Totals(n, index, h[..|h| - 1]);
      ExpandLast(h);
    }
  }

  /** min and max bound every value that was ever added, including those of count zero, and are
      among them. */
  lemma {:induction false} Extremes(n: nat, index: Index, h: seq<Add>) returns (i: nat, j: nat)
    requires h != []
    ensures i < |h| && j < |h|
    ensures Build(n, index, h).min == Some(h[i].value) && Build(n, index, h).max == Some(h[j].value)
    ensures forall k :: 0 <= k < |h| ==> h[i].value <= h[k].value <= h[j].value
    decreases |h|
  {
    var m := |h| - 1;
    if m == 0 {
      assert Build(n, index, h[..0]) == Empty(n);
      i, j := 0, 0;
    } else {
      i, j := Extremes(n, index, h[..m]);
      assert forall k :: 0 <= k < m ==> h[..m][k] == h[k];
      i, j := if h[m].value < h[i].value then m else i, if h[m].value > h[j].value then m else j;
    }
  }
}
