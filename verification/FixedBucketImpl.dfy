/** The mutable fixed-bucket histogram. `history` records the add calls; every method keeps the
    fields equal to the histogram of that history. */
module FixedBucketObject {
  import opened Wrappers
  import opened OrderStatistics
  import opened Samples
  import opened HistogramErrors
  import opened FixedBucket
  import opened FixedQuantile

  /** An exported bucket; None stands for an infinite end. */
  datatype Bucket = Bucket(lower: Option<real>, upper: Option<real>, count: nat)

  /** std::is_sorted */
  method IsSorted(bounds: seq<real>) returns (b: bool)
    ensures b <==> SortedBounds(bounds)
  {
    var i := 1;
    while i < |bounds|
      invariant i >= 1 && (i <= |bounds| ==> SortedBounds(bounds[..i]))
      invariant i > |bounds| ==> |bounds| == 0
    {
      if bounds[i] < bounds[i - 1] {
        return false;
      }
      assert forall j :: 0 <= j < i ==> bounds[j] <= bounds[i] by {
        assert forall j :: 0 <= j < i - 1 ==> bounds[..i][j] <= bounds[..i][i - 1];
      }
      i := i + 1;
    }
    assert |bounds| >= 1 ==> bounds[..|bounds|] == bounds;
    return true;
  }

  /** How many of the values belong to bucket i. */
  ghost function CountInBucket(values: seq<real>, bounds: seq<real>, i: nat): nat {
    if values == [] then 0
    else (if InBucket(bounds, i, values[0]) then 1 else 0) + CountInBucket(values[1..], bounds, i)
  }

  lemma {:induction false} CountInBucketIsCountOf(values: seq<real>, bounds: seq<real>, i: nat)
    requires SortedBounds(bounds)
    ensures CountInBucket(values, bounds, i) == CountOf(Map(v => Position(bounds, v) as int, values), i)
  {
    var f := (v: real) => Position(bounds, v) as int;
    if values != [] {
      PositionIsBucket(bounds, values[0], i);
      assert Map(f, values)[1..] == Map(f, values[1..]);
      CountInBucketIsCountOf(values[1..], bounds, i);
    }
  }

  /** Each counter is the number of added values in its bucket. */
  lemma BucketMeaning(bounds: seq<real>, h: seq<Add>, s: Tally, i: nat)
    requires SortedBounds(bounds) && s == Histogram(bounds, h) && i < |s.buckets|
    ensures s.buckets[i] == CountInBucket(Expand(h), bounds, i)
  {
    BucketCountOf(|bounds| + 1, v => Position(bounds, v), h, i);
    CountInBucketIsCountOf(Expand(h), bounds, i);
    assert Indices(v => Position(bounds, v), h) == Map(v => Position(bounds, v) as int, Expand(h));
  }

  lemma HistogramAppend(bounds: seq<real>, h: seq<Add>, a: Add)
    ensures Histogram(bounds, h + [a]) == AddedAt(Histogram(bounds, h), Position(bounds, a.value), a)
  {
    assert (h + [a])[..|h|] == h;
  }

  lemma HistogramConcat(bounds: seq<real>, g: seq<Add>, h: seq<Add>, a: Tally, b: Tally)
    requires a == Histogram(bounds, g) && b == Histogram(bounds, h)
    ensures Histogram(bounds, g + h) == Merged(a, b)
  {
    Mergeability(|bounds| + 1, v => Position(bounds, v), g, h, g + h);
  }

  class FixedBucketHistogramImpl {
    const bounds: seq<real>
    const buckets: array<nat>
    var count: nat
    var sum: real
    var min: Option<real>
    var max: Option<real>
    ghost var history: seq<Add>

    ghost function State(): Tally
      reads this, buckets
    {
      Tally(buckets[..], count, sum, min, max)
    }

    ghost predicate Valid()
      reads this, buckets
    {
      bounds != [] && SortedBounds(bounds) && State() == Histogram(bounds, history)
    }

    constructor (bounds: seq<real>)
      requires bounds != [] && SortedBounds(bounds)
      ensures Valid() && fresh(buckets) && this.bounds == bounds && history == []
    {
      this.bounds := bounds;
      buckets := new nat[|bounds| + 1](_ => 0);
      count, sum, min, max, history := 0, 0.0, None, None, [];
      new;
      assert buckets[..] == Repeat(0, |bounds| + 1);
    }

    static method Create(bounds: seq<real>) returns (r: Result<FixedBucketHistogramImpl>)
      ensures r.Ok? <==> bounds != [] && SortedBounds(bounds)
      ensures r.Ok? ==> fresh(r.value) && fresh(r.value.buckets) && r.value.Valid()
      ensures r.Ok? ==> r.value.bounds == bounds && r.value.history == []
      ensures r.Err? ==> r.error == InvalidArgument
    {
      if bounds == [] {
        return Err(InvalidArgument);
      }
      var sorted := IsSorted(bounds);
      if !sorted {
        return Err(InvalidArgument);
      }
      var s := new FixedBucketHistogramImpl(bounds);
      r := Ok(s);
    }

    /** The search loop of add. */
    method FindIndex(value: real) returns (i: nat)
      ensures i == Position(bounds, value)
    {
      i := 0;
      while i < |bounds| && value >= bounds[i]
        invariant i <= |bounds| && Search(bounds, value, 0) == Search(bounds, value, i)
      {
        i := i + 1;
      }
    }

    method Add(value: real, n: nat)
      requires Valid()
      modifies this, buckets
      ensures Valid() && history == old(history) + [Samples.Add(value, n)]
    {
      var i := FindIndex(value);
      ghost var a := Samples.Add(value, n);
      Record(i, value, n);
      HistogramAppend(bounds, history, a);
      history := history + [a];
    }

    /** The field updates of add. */
    method Record(i: nat, value: real, n: nat)
      requires i < buckets.Length
      modifies this`count, this`sum, this`min, this`max, buckets
      ensures State() == AddedAt(old(State()), i, Samples.Add(value, n))
    {
      buckets[i] := buckets[i] + n;
      count := count + n;
      sum := sum + Weight(Samples.Add(value, n));
      if min.None? || value < min.value {
        min := Some(value);
      }
      if max.None? || value > max.value {
        max := Some(value);
      }
    }

    method Merge(other: FixedBucketHistogramImpl) returns (r: Result<()>)
      requires Valid() && other.Valid() && (other == this || other.buckets != buckets)
      modifies this, buckets
      ensures Valid()
      ensures r == if bounds == other.bounds then Ok(()) else Err(InvalidArgument)
      ensures history == if r.Ok? then old(history) + old(other.history) else old(history)
    {
      if bounds != other.bounds {
        return Err(InvalidArgument);
      }
      ghost var mine, added, a, b := history, other.history, State(), other.State();
      Absorb(other);
      HistogramConcat(bounds, mine, added, a, b);
      history := mine + added;
      r := Ok(());
    }

    /** The field updates of merge; `other` may be this histogram itself. */
    method Absorb(other: FixedBucketHistogramImpl)
      requires buckets.Length == other.buckets.Length && (other == this || other.buckets != buckets)
      modifies this`count, this`sum, this`min, this`max, buckets
      ensures State() == Merged(old(State()), old(other.State()))
    {
      ghost var theirs := other.buckets[..];
      for i := 0 to buckets.Length
        invariant forall j :: 0 <= j < i ==> buckets[j] == old(buckets[j]) + theirs[j]
        invariant forall j :: i <= j < buckets.Length ==> buckets[j] == old(buckets[j]) && other.buckets[j] == theirs[j]
        invariant unchanged(this)
      {
        buckets[i] := buckets[i] + other.buckets[i];
      }
      assert buckets[..] == MergedBuckets(old(buckets[..]), theirs);
      count := count + other.count;
      sum := sum + other.sum;
      if min.None? || (other.min.Some? && other.min.value < min.value) {
        min := other.min;
      }
      if max.None? || (other.max.Some? && other.max.value > max.value) {
        max := other.max;
      }
    }

    method Quantile(q: real) returns (r: Result<real>)
      requires Valid()
      ensures r == FixedQuantile.Quantile(bounds, State(), q)
    {
      if q < 0.0 || q > 1.0 {
        return Err(InvalidArgument);
      }
      if count == 0 {
        return Err(EmptyHistogram);
      }
      Totals(|bounds| + 1, v => Position(bounds, v), history);
      var target := TargetOf(q, count);
      var i, cumulative := FindBucket(target);
      ghost var s := State();
      if i == 0 {
        return Present(min);
      }
      if i == buckets.Length {
        return Present(max);
      }
      var start := bounds[i - 1];
      var end := if i < |bounds| then bounds[i] else max.value;
      r := Ok(Interpolate(start, end, target - cumulative as real, buckets[i]));
    }

    /** The scan loop of quantile. */
    method FindBucket(target: real) returns (i: nat, cumulative: nat)
      ensures i == Scan(buckets[..], target, 0) && cumulative == Cumulative(buckets[..], i)
    {
      ghost var b := buckets[..];
      i, cumulative := 0, 0;
      while i < buckets.Length && ((cumulative + buckets[i]) as real) < target
        invariant i <= buckets.Length && cumulative == Cumulative(b, i)
        invariant i > 0 ==> (cumulative as real) < target
        invariant Scan(b, target, 0) == Scan(b, target, i)
      {
        cumulative := cumulative + buckets[i];
        i := i + 1;
      }
    }

    /** Each exported bucket counts exactly the added values between its ends. */
    method Buckets() returns (result: seq<Bucket>)
      requires Valid()
      ensures |result| == |bounds| + 1
      ensures forall i :: 0 <= i < |result| ==>
        && result[i].lower == (if i > 0 then Some(bounds[i - 1]) else None)
        && result[i].upper == (if i < |bounds| then Some(bounds[i]) else None)
        && result[i].count == CountInBucket(Expand(history), bounds, i)
    {
      result := [];
      ghost var s := State();
      for i := 0 to buckets.Length
        invariant |result| == i
        invariant forall j :: 0 <= j < i ==>
          && result[j].lower == (if j > 0 then Some(bounds[j - 1]) else None)
          && result[j].upper == (if j < |bounds| then Some(bounds[j]) else None)
          && result[j].count == CountInBucket(Expand(history), bounds, j)
      {
        var lower := if i > 0 then Some(bounds[i - 1]) else None;
        var upper := if i < |bounds| then Some(bounds[i]) else None;
        BucketMeaning(bounds, history, s, i);
        result := result + [Bucket(lower, upper, buckets[i])];
      }
    }

    method Clear()
      requires Valid()
      modifies this, buckets
      ensures Valid() && history == []
    {
      for i := 0 to buckets.Length
        invariant forall j :: 0 <= j < i ==> buckets[j] == 0
      {
        buckets[i] := 0;
      }
      assert buckets[..] == Repeat(0, buckets.Length);
      count, sum, min, max := 0, 0.0, None, None;
      history := [];
    }
  }
}
