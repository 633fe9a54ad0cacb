/** Grouping by consecutive equal label sets, as Arrow Flight ingestion does, and its relation to
    grouping all items of a label set together. */
module Runs {
  import opened TimeSeries
  import opened Batching

  /** Every item is one row: a single sample. */
  ghost predicate Rows(items: seq<Item>) {
    forall i :: 0 <= i < |items| ==> |items[i].samples| == 1
  }

  /** Rows i - 1 and i belong to one series and do not advance in time. */
  predicate Clash(items: seq<Item>, i: nat)
    requires 1 <= i < |items|
  {
    items[i - 1].labels == items[i].labels
    && items[i - 1].samples != [] && items[i].samples != []
    && items[i - 1].samples[0].timestamp >= items[i].samples[0].timestamp
  }

  ghost predicate Steady(items: seq<Item>) {
    forall i :: 1 <= i < |items| ==> !Clash(items, i)
  }

  /** The maximal runs of equal label sets, each as one series. */
  function RunsOf(items: seq<Item>): seq<Series> {
    if items == [] then []
    else Extend(RunsOf(items[..|items| - 1]), items[|items| - 1])
  }

  function Extend(runs: seq<Series>, x: Item): seq<Series> {
    if runs != [] && runs[|runs| - 1].labels == x.labels
    then runs[..|runs| - 1] + [Series(x.labels, runs[|runs| - 1].samples + x.samples)]
    else runs + [Series(x.labels, x.samples)]
  }

  /** The rows a list of series stands for, in order. */
  function Unpack(ws: seq<Series>): seq<(Labels, Sample)> {
    if ws == [] then [] else Unpack(ws[..|ws| - 1]) + Tag(ws[|ws| - 1].labels, ws[|ws| - 1].samples)
  }

  function Tag(l: Labels, samples: seq<Sample>): seq<(Labels, Sample)> {
    seq(|samples|, i requires 0 <= i < |samples| => (l, samples[i]))
  }

  function Input(items: seq<Item>): seq<(Labels, Sample)> {
    if items == [] then [] else Input(items[..|items| - 1]) + Tag(items[|items| - 1].labels, items[|items| - 1].samples)
  }

  lemma UnpackAppend(ws: seq<Series>, s: Series)
    ensures Unpack(ws + [s]) == Unpack(ws) + Tag(s.labels, s.samples)
  {
    assert (ws + [s])[..|ws|] == ws;
  }

  lemma UnpackExtend(runs: seq<Series>, x: Item)
    ensures Unpack(Extend(runs, x)) == Unpack(runs) + Tag(x.labels, x.samples)
  {
    if runs != [] && runs[|runs| - 1].labels == x.labels {
      var n := |runs| - 1;
      UnpackAppend(runs[..n], Series(x.labels, runs[n].samples + x.samples));
      assert Tag(x.labels, runs[n].samples + x.samples) == Tag(x.labels, runs[n].samples) + Tag(x.labels, x.samples);
    } else {
      UnpackAppend(runs, Series(x.labels, x.samples));
    }
  }

  /** Flattening the runs gives back exactly the rows, in order. */
  lemma {:induction false} RunsUnpack(items: seq<Item>)
    ensures Unpack(RunsOf(items)) == Input(items)
    decreases |items|
  {
    if items != [] {
      RunsUnpack(items[..|items| - 1]);
      UnpackExtend(RunsOf(items[..|items| - 1]), items[|items| - 1]);
    }
  }

  lemma ExtendDiffers(runs: seq<Series>, x: Item)
    requires forall i :: 0 <= i < |runs| - 1 ==> runs[i].labels != runs[i + 1].labels
    ensures var q := Extend(runs, x);
      && q != [] && q[|q| - 1].labels == x.labels
      && forall i :: 0 <= i < |q| - 1 ==> q[i].labels != q[i + 1].labels
  {
  }

  /** Neighbouring runs have different labels. */
  lemma {:induction false} RunsDiffer(items: seq<Item>)
    ensures forall i :: 0 <= i < |RunsOf(items)| - 1 ==> RunsOf(items)[i].labels != RunsOf(items)[i + 1].labels
    ensures items != [] ==> RunsOf(items) != [] && RunsOf(items)[|RunsOf(items)| - 1].labels == items[|items| - 1].labels
    decreases |items|
  {
    if items != [] {
      RunsDiffer(items[..|items| - 1]);
      ExtendDiffers(RunsOf(items[..|items| - 1]), items[|items| - 1]);
    }
  }

  /** All samples written for a label set, in write order. */
  function WrittenFor(ws: seq<Series>, l: Labels): seq<Sample> {
    if ws == [] then []
    else WrittenFor(ws[..|ws| - 1], l) + if ws[|ws| - 1].labels == l then ws[|ws| - 1].samples else []
  }

  lemma WrittenForExtend(runs: seq<Series>, x: Item, l: Labels)
    ensures WrittenFor(Extend(runs, x), l) == WrittenFor(runs, l) + if x.labels == l then x.samples else []
  {
    if runs != [] && runs[|runs| - 1].labels == x.labels {
      var n := |runs| - 1;
      assert Extend(runs, x)[..n] == runs[..n];
    } else {
      assert Extend(runs, x)[..|runs|] == runs;
    }
  }

  /** Per label set, the runs hold the same samples in the same order as the bridge's grouping. */
  lemma {:induction false} RunsAgreeWithGroups(items: seq<Item>, l: Labels)
    ensures WrittenFor(RunsOf(items), l) == GroupOf(items, l)
    decreases |items|
  {
    if items != [] {
      RunsAgreeWithGroups(items[..|items| - 1], l);
      WrittenForExtend(RunsOf(items[..|items| - 1]), items[|items| - 1], l);
    }
  }

  lemma SumSizesAppend(ws: seq<Series>, s: Series)
    ensures SumSizes(ws + [s]) == SumSizes(ws) + |s.samples|
  {
    assert (ws + [s])[..|ws|] == ws;
  }

  lemma {:induction false} RunsConserve(items: seq<Item>)
    requires Rows(items)
    ensures SumSizes(RunsOf(items)) == |items|
    decreases |items|
  {
    if items != [] {
      var n := |items| - 1;
      RunsConserve(items[..n]);
      var runs, x := RunsOf(items[..n]), items[n];
      if runs != [] && runs[|runs| - 1].labels == x.labels {
        SumSizesAppend(runs[..|runs| - 1], Series(x.labels, runs[|runs| - 1].samples + x.samples));
        SumSizesAppend(runs[..|runs| - 1], runs[|runs| - 1]);
        assert runs == runs[..|runs| - 1] + [runs[|runs| - 1]];
      } else {
        SumSizesAppend(runs, Series(x.labels, x.samples));
      }
    }
  }

  /** The last sample of the last run is the last row's. */
  lemma LastOfRuns(items: seq<Item>)
    requires Rows(items) && items != []
    ensures RunsOf(items) != []
    ensures var s := RunsOf(items)[|RunsOf(items)| - 1];
      s.samples != [] && s.labels == items[|items| - 1].labels
      && s.samples[|s.samples| - 1] == items[|items| - 1].samples[0]
  {
  }

  /** Two rows of one group in the given order of time. */
  lemma {:induction false} GroupKeepsOrder(items: seq<Item>, i: nat)
    requires Rows(items) && 1 <= i < |items| && Clash(items, i)
    ensures !Chronological(GroupOf(items, items[i].labels))
    decreases |items|
  {
    var l, n := items[i].labels, |items| - 1;
    if i == n {
      assert items[..n][n - 1] == items[n - 1];
      var before := items[..n];
      var g := GroupOf(before, l);
      assert before[|before| - 1].labels == l;
      assert g != [] && g[|g| - 1] == items[n - 1].samples[0];
      assert GroupOf(items, l)[|g| - 1] == g[|g| - 1] && GroupOf(items, l)[|g|] == items[n].samples[0];
    } else {
      GroupKeepsOrder(items[..n], i);
      if Chronological(GroupOf(items, l)) {
        ChronologicalPrefix(GroupOf(items[..n], l), if items[n].labels == l then items[n].samples else []);
        assert false;
      }
    }
  }

  /** Whatever the bridge's grouping accepts, run grouping accepts too. */
  lemma InOrderIsSteady(items: seq<Item>)
    requires Rows(items) && InOrder(items)
    ensures Steady(items)
  {
    forall i | 1 <= i < |items| ensures !Clash(items, i) {
      assert items[i].labels in LabelSets(items);
      if Clash(items, i) {
        GroupKeepsOrder(items, i);
        assert false;
      }
    }
  }

  /** But not the other way round: rows that alternate between series may go back in time. */
  lemma SteadyNotInOrder(a: Labels, b: Labels)
    requires a != b
    ensures var items := [Item(a, [Sample(5, 0.0)]), Item(b, [Sample(1, 0.0)]), Item(a, [Sample(3, 0.0)])];
      Rows(items) && Steady(items) && !InOrder(items)
  {
    var items := [Item(a, [Sample(5, 0.0)]), Item(b, [Sample(1, 0.0)]), Item(a, [Sample(3, 0.0)])];
    assert items[0].labels in LabelSets(items);
    assert items[..2][..1] == [items[0]] && items[..2] == [items[0], items[1]];
    assert GroupOf([items[0]], a) == [Sample(5, 0.0)] by { assert [items[0]][..0] == []; }
    assert GroupOf(items[..2], a) == [Sample(5, 0.0)];
    var g := GroupOf(items, a);
    assert g == [Sample(5, 0.0), Sample(3, 0.0)];
    assert g[0].timestamp >= g[1].timestamp;
  }

  // ------------------------------------------------------ where a list of rows stops being steady

  /** The number of rows before the first clash. */
  function SteadyPrefix(items: seq<Item>): (k: nat)
    ensures k <= |items|
  {
    if items == [] then 0
    else
      var n := |items| - 1;
      var k := SteadyPrefix(items[..n]);
      if k == n && (n == 0 || !Clash(items, n)) then n + 1 else k
  }

  lemma ClashPrefix(items: seq<Item>, n: nat, i: nat)
    requires 1 <= i < n <= |items|
    ensures Clash(items[..n], i) == Clash(items, i)
  {
  }

  /** SteadyPrefix is what its name says: no clash before it, and a clash right there unless it is
      the whole list. */
  lemma {:induction false} SteadyPrefixMeaning(items: seq<Item>)
    ensures var k := SteadyPrefix(items);
      && (forall i :: 1 <= i < k ==> !Clash(items, i))
      && (k < |items| ==> 1 <= k && Clash(items, k))
    ensures SteadyPrefix(items) == |items| <==> Steady(items)
    decreases |items|
  {
    if items != [] {
      var n := |items| - 1;
      SteadyPrefixMeaning(items[..n]);
      forall i | 1 <= i < n ensures Clash(items[..n], i) == Clash(items, i) {
        ClashPrefix(items, n, i);
      }
    }
  }

  /** The first clash determines SteadyPrefix. */
  lemma SteadyPrefixUnique(items: seq<Item>, k: nat)
    requires 1 <= k < |items| && Clash(items, k) && forall i :: 1 <= i < k ==> !Clash(items, i)
    ensures SteadyPrefix(items) == k
  {
    SteadyPrefixMeaning(items);
  }

  /** Where the last run begins. */
  function RunStart(items: seq<Item>): (k: nat)
    requires items != []
    ensures k < |items|
  {
    var n := |items| - 1;
    if n > 0 && items[n - 1].labels == items[n].labels then RunStart(items[..n]) else n
  }

  /** From there on all labels are the same, and the row before has others. */
  lemma {:induction false} RunStartMeaning(items: seq<Item>)
    requires items != []
    ensures var k, l := RunStart(items), items[|items| - 1].labels;
      (forall i :: k <= i < |items| ==> items[i].labels == l) && (k > 0 ==> items[k - 1].labels != l)
    decreases |items|
  {
    var n := |items| - 1;
    if n > 0 && items[n - 1].labels == items[n].labels {
      RunStartMeaning(items[..n]);
      assert forall i :: 0 <= i < n ==> items[..n][i] == items[i];
    }
  }

  /** The runs without the last are the runs of the rows before it. */
  lemma {:induction false} FrontOfRuns(items: seq<Item>)
    requires items != []
    ensures RunsOf(items) != [] && RunsOf(items)[..|RunsOf(items)| - 1] == RunsOf(items[..RunStart(items)])
    decreases |items|
  {
    var n := |items| - 1;
    var before := items[..n];
    RunsDiffer(before);
    if n > 0 && items[n - 1].labels == items[n].labels {
      FrontOfRuns(before);
      assert before[..RunStart(before)] == items[..RunStart(items)];
    } else {
      assert n > 0 ==> before[n - 1] == items[n - 1];
    }
  }
}
