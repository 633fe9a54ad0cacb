/** The one specification that every ingestion path is compared with: group items by label set,
    keeping their order, and write each group once, in label order. */
module Batching {
  import opened Ordering
  import opened TimeSeries

  /** What one data point contributes: some samples for one label set. */
  datatype Item = Item(labels: Labels, samples: seq<Sample>)

  /** All samples for a label set, in item order. */
  function GroupOf(items: seq<Item>, l: Labels): seq<Sample> {
    if items == [] then []
    else
      var n := |items| - 1;
      GroupOf(items[..n], l) + if items[n].labels == l then items[n].samples else []
  }

  function LabelSets(items: seq<Item>): (s: set<Labels>) {
    set i | 0 <= i < |items| :: items[i].labels
  }

  /** No group ever goes back in time, so add_sample never throws. */
  ghost predicate InOrder(items: seq<Item>) {
    forall l :: l in LabelSets(items) ==> Chronological(GroupOf(items, l))
  }

  function LabelOrder(s: set<Labels>): (q: seq<Labels>)
    ensures forall l :: l in q <==> l in s
    ensures forall i, j :: 0 <= i < j < |q| ==> LabelsLess(q[i], q[j])
    ensures |q| == |s|
  {
    LabelsOrder();
    Sorted(LabelsLess, s)
  }

  function SeriesFor(items: seq<Item>, keys: seq<Labels>): seq<Series> {
    seq(|keys|, i requires 0 <= i < |keys| => Series(keys[i], GroupOf(items, keys[i])))
  }

  /** The series to write for a list of items. */
  function Grouped(items: seq<Item>): seq<Series> {
    SeriesFor(items, LabelOrder(LabelSets(items)))
  }

  // ------------------------------------------------------------- properties of grouping

  lemma {:induction false} GroupConcat(a: seq<Item>, b: seq<Item>, l: Labels)
    ensures GroupOf(a + b, l) == GroupOf(a, l) + GroupOf(b, l)
    decreases |b|
  {
    if b == [] {
      assert a + b == a;
    } else {
      var n := |b| - 1;
      assert (a + b)[..|a + b| - 1] == a + b[..n];
      GroupConcat(a, b[..n], l);
    }
  }

  lemma {:induction false} GroupEmpty(items: seq<Item>, l: Labels)
    requires l !in LabelSets(items)
    ensures GroupOf(items, l) == []
    decreases |items|
  {
    if items != [] {
      var n := |items| - 1;
      assert items[n].labels in LabelSets(items);
      forall k | k in LabelSets(items[..n]) ensures k in LabelSets(items) {
        var i :| 0 <= i < n && items[..n][i].labels == k;
        assert items[i].labels == k;
      }
      GroupEmpty(items[..n], l);
    }
  }

  lemma LabelSetsAppend(items: seq<Item>, x: Item)
    ensures LabelSets(items + [x]) == LabelSets(items) + {x.labels}
  {
    var all := items + [x];
    forall l ensures l in LabelSets(all) <==> l in LabelSets(items) + {x.labels} {
      if l in LabelSets(items) {
        var i :| 0 <= i < |items| && items[i].labels == l;
        assert all[i].labels == l;
      }
      assert all[|items|].labels == x.labels;
    }
  }

  /** Each label set is written, with all of its samples in item order; nothing else is written. */
  lemma GroupedComplete(items: seq<Item>, l: Labels)
    ensures l in LabelSets(items) <==> exists i :: 0 <= i < |Grouped(items)| && Grouped(items)[i].labels == l
    ensures forall i :: 0 <= i < |Grouped(items)| && Grouped(items)[i].labels == l ==>
      Grouped(items)[i].samples == GroupOf(items, l)
  {
    var keys := LabelOrder(LabelSets(items));
    if l in LabelSets(items) {
      assert l in keys;
      var i :| 0 <= i < |keys| && keys[i] == l;
      assert Grouped(items)[i].labels == l;
    } else {
      assert l !in keys;
    }
  }

  /** Writes come in increasing label order, so no label set is written twice. */
  lemma GroupedOrdered(items: seq<Item>, i: nat, j: nat)
    requires i < j < |Grouped(items)|
    ensures LabelsLess(Grouped(items)[i].labels, Grouped(items)[j].labels)
    ensures Grouped(items)[i].labels != Grouped(items)[j].labels
  {
    LabelsOrder();
    var keys := LabelOrder(LabelSets(items));
    assert LabelsLess(keys[i], keys[j]);
  }

  function TotalSamples(items: seq<Item>): nat {
    if items == [] then 0 else TotalSamples(items[..|items| - 1]) + |items[|items| - 1].samples|
  }

  function SumSizes(ws: seq<Series>): nat {
    if ws == [] then 0 else SumSizes(ws[..|ws| - 1]) + |ws[|ws| - 1].samples|
  }

  lemma {:induction false} SumSizesExtended(items: seq<Item>, x: Item, keys: seq<Labels>)
    requires forall i, j :: 0 <= i < j < |keys| ==> keys[i] != keys[j]
    ensures SumSizes(SeriesFor(items + [x], keys))
         == SumSizes(SeriesFor(items, keys)) + if x.labels in keys then |x.samples| else 0
    decreases |keys|
  {
    if keys != [] {
      var n := |keys| - 1;
      SumSizesExtended(items, x, keys[..n]);
      assert SeriesFor(items, keys)[..n] == SeriesFor(items, keys[..n]);
      assert SeriesFor(items + [x], keys)[..n] == SeriesFor(items + [x], keys[..n]);
      assert (items + [x])[..|items|] == items;
      assert keys == keys[..n] + [keys[n]];
    }
  }

  lemma {:induction false} SumSizesEmpty(keys: seq<Labels>)
    ensures SumSizes(SeriesFor([], keys)) == 0
    decreases |keys|
  {
    if keys != [] {
      var n := |keys| - 1;
      assert SeriesFor([], keys)[..n] == SeriesFor([], keys[..n]);
      SumSizesEmpty(keys[..n]);
    }
  }

  lemma {:induction false} SumSizesAll(items: seq<Item>, keys: seq<Labels>)
    requires forall i, j :: 0 <= i < j < |keys| ==> keys[i] != keys[j]
    requires forall i :: 0 <= i < |items| ==> items[i].labels in keys
    ensures SumSizes(SeriesFor(items, keys)) == TotalSamples(items)
    decreases |items|
  {
    if items == [] {
      SumSizesEmpty(keys);
    } else {
      var n := |items| - 1;
      assert items == items[..n] + [items[n]];
      SumSizesAll(items[..n], keys);
      SumSizesExtended(items[..n], items[n], keys);
    }
  }

  /** Grouping conserves samples: what is written is as much as what came in. */
  lemma GroupedConserves(items: seq<Item>)
    ensures SumSizes(Grouped(items)) == TotalSamples(items)
  {
    LabelsOrder();
    var keys := LabelOrder(LabelSets(items));
    forall i, j | 0 <= i < j < |keys| ensures keys[i] != keys[j] {
      assert LabelsLess(keys[i], keys[j]);
    }
    forall i | 0 <= i < |items| ensures items[i].labels in keys {
      assert items[i].labels in LabelSets(items);
    }
    SumSizesAll(items, keys);
  }
}
