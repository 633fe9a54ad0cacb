/** The scan of DDSketch's quantile over its buckets in key order. */
module BucketScan {
  import opened Ordering
  import opened OrderStatistics

  predicate IntLess(a: int, b: int) {
    a < b
  }

  /** The bucket indices in the iteration order of `std::map`. */
  function Keys(counts: map<int, nat>): (q: seq<int>)
    ensures forall i, j :: 0 <= i < j < |q| ==> q[i] < q[j]
    ensures forall k :: k in q <==> k in counts
  {
    assert StrictTotal(IntLess);
    Sorted(IntLess, counts.Keys)
  }

  lemma KeysLength(counts: map<int, nat>)
    ensures |Keys(counts)| == |counts|
  {
    assert StrictTotal(IntLess);
    assert |counts.Keys| == |counts|;
  }

  ghost predicate Lists(keys: seq<int>, counts: map<int, nat>) {
    && (forall i, j :: 0 <= i < j < |keys| ==> keys[i] < keys[j])
    && (forall i :: 0 <= i < |keys| ==> keys[i] in counts)
  }

  /** The total count of the first n buckets. */
  function Cumulative(counts: map<int, nat>, keys: seq<int>, n: nat): nat
    requires Lists(keys, counts) && n <= |keys|
  {
    if n == 0 then 0 else Cumulative(counts, keys, n - 1) + counts[keys[n - 1]]
  }

  /** The position where the scan for `target` stops. */
  function Scan(counts: map<int, nat>, keys: seq<int>, target: nat, i: nat): (r: nat)
    requires Lists(keys, counts) && i <= |keys|
    requires Cumulative(counts, keys, i) <= target
    ensures i <= r <= |keys| && Cumulative(counts, keys, r) <= target
    ensures r < |keys| ==> target < Cumulative(counts, keys, r) + counts[keys[r]]
    decreases |keys| - i
  {
    if i < |keys| && Cumulative(counts, keys, i) + counts[keys[i]] <= target
    then Scan(counts, keys, target, i + 1) else i
  }

  /** `counts` tells how often each bucket index occurs in `indices`. */
  ghost predicate Faithful(counts: map<int, nat>, keys: seq<int>, indices: seq<int>) {
    && Lists(keys, counts)
    && (forall i {:trigger counts[keys[i]]} :: 0 <= i < |keys| ==> counts[keys[i]] == CountOf(indices, keys[i]))
    && (forall k :: k in indices ==> k in keys)
  }

  /** The running sum of the scan counts the values below the next bucket. */
  lemma {:induction false} CumulativeIsBelow(counts: map<int, nat>, keys: seq<int>, indices: seq<int>, n: nat)
    requires Faithful(counts, keys, indices) && n < |keys|
    ensures Cumulative(counts, keys, n) == Below(indices, keys[n])
    ensures Cumulative(counts, keys, n + 1) == Below(indices, keys[n] + 1)
  {
    if n == 0 {
      forall i | 0 <= i < |indices| ensures keys[0] <= indices[i] {
        assert indices[i] in indices;
        var j :| 0 <= j < |keys| && keys[j] == indices[i];
      }
      BelowNone(indices, keys[0]);
    } else {
      CumulativeIsBelow(counts, keys, indices, n - 1);
      forall i | 0 <= i < |indices| ensures indices[i] < keys[n - 1] + 1 || indices[i] >= keys[n] {
        assert indices[i] in indices;
        var j :| 0 <= j < |keys| && keys[j] == indices[i];
      }
      BelowSame(indices, keys[n - 1] + 1, keys[n]);
    }
    BelowNext(indices, keys[n]);
  }

  lemma AllCounted(counts: map<int, nat>, keys: seq<int>, indices: seq<int>)
    requires Faithful(counts, keys, indices)
    ensures Cumulative(counts, keys, |keys|) == |indices|
  {
    HasMember(indices);
    if keys != [] {
      var n := |keys| - 1;
      CumulativeIsBelow(counts, keys, indices, n);
      forall i | 0 <= i < |indices| ensures indices[i] < keys[n] + 1 {
        assert indices[i] in indices;
        var j :| 0 <= j < |keys| && keys[j] == indices[i];
      }
      BelowAll(indices, keys[n] + 1);
    }
  }

  /** The scan for rank `target` stops in a bucket that holds more than the remaining offset. */
  ghost predicate Stops(counts: map<int, nat>, keys: seq<int>, target: nat) {
    && Lists(keys, counts)
    && var i := Scan(counts, keys, target, 0);
       i < |keys| && counts[keys[i]] > target - Cumulative(counts, keys, i)
  }

  ghost function StopBucket(counts: map<int, nat>, keys: seq<int>, target: nat): int
    requires Stops(counts, keys, target)
  {
    keys[Scan(counts, keys, target, 0)]
  }

  /** The scan stops inside a bucket, never past the end, and the bucket is not empty. */
  lemma ScanInside(counts: map<int, nat>, keys: seq<int>, target: nat)
    requires Lists(keys, counts) && target < Cumulative(counts, keys, |keys|)
    ensures Stops(counts, keys, target)
  {
  }

  /** Rank `target` is among the indices equal to k. */
  ghost predicate Encloses(indices: seq<int>, k: int, target: nat) {
    Below(indices, k) <= target < Below(indices, k + 1)
  }

  /** Rank `target` falls between the counts below the bucket and up to it. */
  lemma RankInStop(counts: map<int, nat>, keys: seq<int>, indices: seq<int>, target: nat)
    requires Faithful(counts, keys, indices) && Stops(counts, keys, target)
    ensures Encloses(indices, StopBucket(counts, keys, target), target)
  {
    CumulativeIsBelow(counts, keys, indices, Scan(counts, keys, target, 0));
  }

  lemma {:induction false} ScanMonotone(counts: map<int, nat>, keys: seq<int>, t: nat, u: nat, i: nat)
    requires Lists(keys, counts) && i <= |keys|
    requires Cumulative(counts, keys, i) <= t <= u
    ensures Scan(counts, keys, t, i) <= Scan(counts, keys, u, i)
    decreases |keys| - i
  {
    if i < |keys| && Cumulative(counts, keys, i) + counts[keys[i]] <= t {
      ScanMonotone(counts, keys, t, u, i + 1);
    }
  }
}
