/** When a list of data points can be batched at all: the exact condition on timestamps under which
    no series goes back in time, so that add_sample does not throw. */
module Spacing {
  import opened TimeSeries
  import opened Batching
  import opened StorageModel
  import opened OtelTypes
  import opened OtelBridge

  /** Every item brings samples, in increasing time. */
  ghost predicate Forward(items: seq<Item>) {
    forall i :: 0 <= i < |items| ==> items[i].samples != [] && Chronological(items[i].samples)
  }

  function First(x: Item): int
    requires x.samples != []
  {
    x.samples[0].timestamp
  }

  function Last(x: Item): int
    requires x.samples != []
  {
    x.samples[|x.samples| - 1].timestamp
  }

  /** Of the first n items, those of label set l end before t. */
  ghost predicate Before(items: seq<Item>, l: Labels, n: nat, t: int)
    requires Forward(items) && n <= |items|
  {
    forall i :: 0 <= i < n && items[i].labels == l ==> Last(items[i]) < t
  }

  /** Among the first n items, each of label set l begins after all before it have ended. */
  ghost predicate Apart(items: seq<Item>, l: Labels, n: nat)
    requires Forward(items) && n <= |items|
  {
    n == 0 || (Apart(items, l, n - 1) && (items[n - 1].labels == l ==> Before(items, l, n - 1, First(items[n - 1]))))
  }

  lemma {:induction false} ApartMeaning(items: seq<Item>, l: Labels, n: nat)
    requires Forward(items) && n <= |items|
    ensures Apart(items, l, n) <==>
      forall i, j :: 0 <= i < j < n && items[i].labels == l && items[j].labels == l ==> Last(items[i]) < First(items[j])
  {
    if n > 0 {
      ApartMeaning(items, l, n - 1);
    }
  }

  lemma ChronologicalConcat(a: seq<Sample>, b: seq<Sample>)
    requires Chronological(b) && b != []
    ensures Chronological(a + b) <==>
      Chronological(a) && (a == [] || a[|a| - 1].timestamp < b[0].timestamp)
  {
    var all := a + b;
    if Chronological(all) {
      ChronologicalPrefix(a, b);
      assert a != [] ==> all[|a| - 1] == a[|a| - 1] && all[|a|] == b[0];
    } else if Chronological(a) && (a == [] || a[|a| - 1].timestamp < b[0].timestamp) {
      forall i, j | 0 <= i < j < |all| ensures all[i].timestamp < all[j].timestamp {
        if i < |a| <= j {
          assert i == |a| - 1 || a[i].timestamp < a[|a| - 1].timestamp;
          assert j == |a| || b[0].timestamp < b[j - |a|].timestamp;
        }
      }
    }
  }

  ghost predicate EndsBefore(g: seq<Sample>, t: int) {
    g == [] || g[|g| - 1].timestamp < t
  }

  lemma GroupNext(items: seq<Item>, n: nat, l: Labels)
    requires n < |items|
    ensures GroupOf(items[..n + 1], l) == if items[n].labels == l then GroupOf(items[..n], l) + items[n].samples else GroupOf(items[..n], l)
  {
    assert items[..n + 1][..n] == items[..n];
  }

  lemma EndStep(g: seq<Sample>, chunk: seq<Sample>, t: int)
    requires chunk != [] && Chronological(chunk) && Chronological(g + chunk)
    ensures Chronological(g) && EndsBefore(g, chunk[0].timestamp)
    ensures chunk[0].timestamp <= chunk[|chunk| - 1].timestamp
    ensures EndsBefore(g + chunk, t) <==> chunk[|chunk| - 1].timestamp < t
  {
    ChronologicalConcat(g, chunk);
  }

  lemma BeforeNext(items: seq<Item>, l: Labels, n: nat, t: int)
    requires Forward(items) && n < |items|
    ensures Before(items, l, n + 1, t) <==> Before(items, l, n, t) && (items[n].labels == l ==> Last(items[n]) < t)
  {
  }

  lemma BeforeLater(items: seq<Item>, l: Labels, n: nat, t: int, u: int)
    requires Forward(items) && n <= |items| && Before(items, l, n, t) && t <= u
    ensures Before(items, l, n, u)
  {
  }

  lemma EndOfNext(items: seq<Item>, n: nat, l: Labels, t: int, g: seq<Sample>)
    requires Forward(items) && n < |items| && items[n].labels == l && Chronological(g + items[n].samples)
    requires EndsBefore(g, First(items[n])) ==> Before(items, l, n, First(items[n]))
    ensures EndsBefore(g + items[n].samples, t) <==> Before(items, l, n + 1, t)
  {
    var x := items[n];
    EndStep(g, x.samples, t);
    BeforeNext(items, l, n, t);
    if Last(x) < t {
      BeforeLater(items, l, n, First(x), t);
    }
  }

  /** A group ends before t exactly when each of its items does. */
  lemma {:induction false} EndOfGroup(items: seq<Item>, n: nat, l: Labels, t: int, g: seq<Sample>)
    requires Forward(items) && n <= |items| && g == GroupOf(items[..n], l) && Chronological(g)
    ensures EndsBefore(g, t) <==> Before(items, l, n, t)
  {
    if n > 0 {
      var x, before := items[n - 1], GroupOf(items[..n - 1], l);
      GroupNext(items, n - 1, l);
      if x.labels == l {
        EndStep(before, x.samples, t);
        EndOfGroup(items, n - 1, l, First(x), before);
        EndOfNext(items, n - 1, l, t, before);
      } else {
        EndOfGroup(items, n - 1, l, t, g);
        BeforeNext(items, l, n - 1, t);
      }
    }
  }

  /** Adding an item keeps a group chronological exactly when the group so far ends before it. */
  lemma GroupStep(items: seq<Item>, n: nat, l: Labels)
    requires Forward(items) && n < |items| && items[n].labels == l
    ensures Chronological(GroupOf(items[..n + 1], l)) <==>
      Chronological(GroupOf(items[..n], l)) && Before(items, l, n, First(items[n]))
  {
    GroupNext(items, n, l);
    var g := GroupOf(items[..n], l);
    ChronologicalConcat(g, items[n].samples);
    if Chronological(g) {
      EndOfGroup(items, n, l, First(items[n]), g);
    }
  }

  lemma {:induction false} GroupInOrder(items: seq<Item>, n: nat, l: Labels, g: seq<Sample>)
    requires Forward(items) && n <= |items| && g == GroupOf(items[..n], l)
    ensures Chronological(g) <==> Apart(items, l, n)
  {
    if n > 0 {
      var before := GroupOf(items[..n - 1], l);
      GroupInOrder(items, n - 1, l, before);
      if items[n - 1].labels == l {
        GroupStep(items, n - 1, l);
      } else {
        assert before == g by { GroupNext(items, n - 1, l); }
      }
    }
  }

  /** Batching succeeds exactly when, for any two items of the same series, the earlier one in the
      list ends before the later one begins. */
  lemma InOrderIff(items: seq<Item>)
    requires Forward(items)
    ensures InOrder(items) <==>
      forall i, j :: 0 <= i < j < |items| && items[i].labels == items[j].labels ==> Last(items[i]) < First(items[j])
  {
    forall l ensures Chronological(GroupOf(items, l)) <==>
      forall i, j :: 0 <= i < j < |items| && items[i].labels == l && items[j].labels == l ==> Last(items[i]) < First(items[j])
    {
      assert items[..|items|] == items;
      GroupInOrder(items, |items|, l, GroupOf(items, l));
      ApartMeaning(items, l, |items|);
    }
    assert forall i :: 0 <= i < |items| ==> items[i].labels in LabelSets(items);
  }

  /** Gauge and sum points convert without an exception exactly when points with the same effective
      labels have strictly increasing timestamps in milliseconds. */
  lemma NumbersInOrderIff(base: Labels, points: seq<NumberPoint>)
    ensures InOrder(NumberItems(base, points)) <==>
      forall i, j :: 0 <= i < j < |points| && Overlay(points[i].attributes, base) == Overlay(points[j].attributes, base) ==>
        Millis(points[i].timeUnixNano) < Millis(points[j].timeUnixNano)
  {
    var items := NumberItems(base, points);
    forall i | 0 <= i < |points|
      ensures items[i].samples != [] && Chronological(items[i].samples)
      ensures First(items[i]) == Last(items[i]) == Millis(points[i].timeUnixNano)
    {
    }
    InOrderIff(items);
  }

  lemma HistogramSpan(p: HistogramPoint)
    ensures Chronological(HistogramSamples(p))
    ensures var q := HistogramSamples(p);
      q[0].timestamp == Millis(p.timeUnixNano) && q[|q| - 1].timestamp == Millis(p.timeUnixNano) + 1 + |p.bucketCounts|
  {
    var q := HistogramSamples(p);
    assert forall i :: 0 <= i < |q| ==> q[i].timestamp == Millis(p.timeUnixNano) + i;
  }

  /** A histogram point occupies 2 + |bucketCounts| milliseconds, so points of one series convert
      exactly when each starts after all the milliseconds of every point before it. */
  lemma HistogramsInOrderIff(base: Labels, points: seq<HistogramPoint>)
    ensures InOrder(HistogramItems(base, points)) <==>
      forall i, j :: 0 <= i < j < |points| && Overlay(points[i].attributes, base) == Overlay(points[j].attributes, base) ==>
        Millis(points[i].timeUnixNano) + 1 + |points[i].bucketCounts| < Millis(points[j].timeUnixNano)
  {
    var items := HistogramItems(base, points);
    forall i | 0 <= i < |points|
      ensures items[i].samples != [] && Chronological(items[i].samples)
      ensures First(items[i]) == Millis(points[i].timeUnixNano)
      ensures Last(items[i]) == Millis(points[i].timeUnixNano) + 1 + |points[i].bucketCounts|
    {
      HistogramSpan(points[i]);
    }
    InOrderIff(items);
  }

  /** Two attribute-less points within one millisecond make the whole metric fail: nothing is written. */
  lemma SameMillisecondThrows(base: Labels, a: NumberPoint, b: NumberPoint, n: nat, accepts: Environment)
    requires a.attributes == b.attributes == [] && Millis(a.timeUnixNano) == Millis(b.timeUnixNano)
    ensures OutcomeOf(NumberItems(base, [a, b]), n, accepts) == Thrown && WritesOf(NumberItems(base, [a, b]), n, accepts) == []
  {
    NumbersInOrderIff(base, [a, b]);
    assert Overlay([a, b][0].attributes, base) == Overlay([a, b][1].attributes, base);
  }
}
