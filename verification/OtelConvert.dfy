/** The three converters of `OTELMetricsBridgeImpl`, each proved against the grouping specification,
    including the exception that add_sample raises when a series goes back in time. */
module OtelConvert {
  import opened Wrappers
  import opened TimeSeries
  import opened Batching
  import opened StorageModel
  import opened OtelTypes
  import opened OtelBridge

  method AppendAttributes(attributes: seq<KeyValue>, labels: Labels) returns (r: Labels)
    ensures r == Overlay(attributes, labels)
  {
    r := labels;
    for i := 0 to |attributes|
      invariant r == Overlay(attributes[..i], labels)
    {
      assert attributes[..i + 1][..i] == attributes[..i];
      var value := Rendered(attributes[i].value);
      if value.None? {
        continue;
      }
      r := r[attributes[i].key := value.value];
    }
    assert attributes[..|attributes|] == attributes;
  }

  function Put(batch: Batch, l: Labels, samples: Option<seq<Sample>>): Option<Batch> {
    if samples.None? then None else Some(batch[l := samples.value])
  }

  /** Adding to a series that was just updated replaces it. */
  lemma PutTwice(batch: Batch, l: Labels, samples: seq<Sample>, x: Sample)
    ensures Put(batch[l := samples], l, AddAll(Current(batch[l := samples], l), [x])) == Put(batch, l, AddAll(samples, [x]))
  {
    AddAllOne(samples, x);
    assert batch[l := samples][l := samples + [x]] == batch[l := samples + [x]];
  }

  lemma AddAllOne(samples: seq<Sample>, x: Sample)
    ensures AddAll(samples, [x]) == if Accepts(samples, x) then Some(samples + [x]) else None
  {
    assert [x][1..] == [];
  }

  lemma {:induction false} AddAllConcat(samples: seq<Sample>, a: seq<Sample>, b: seq<Sample>)
    ensures AddAll(samples, a + b) == if AddAll(samples, a).None? then None else AddAll(AddAll(samples, a).value, b)
    decreases |a|
  {
    if a == [] {
      assert a + b == b;
    } else {
      assert (a + b)[1..] == a[1..] + b;
      AddAllConcat(samples + [a[0]], a[1..], b);
    }
  }

  /** Find or create the series in the batch and add one sample; None means add_sample threw. */
  method AddOne(batch: Batch, labels: Labels, sample: Sample) returns (b: Option<Batch>)
    ensures b == Put(batch, labels, AddAll(Current(batch, labels), [sample]))
  {
    AddAllOne(Current(batch, labels), sample);
    var samples := if labels in batch then batch[labels] else [];
    if samples != [] && samples[|samples| - 1].timestamp >= sample.timestamp {
      return None;
    }
    b := Some(batch[labels := samples + [sample]]);
  }

  /** What the batch loop has achieved after the first i items. */
  ghost predicate LoopOk(batch: Batch, base: Labels, items: seq<Item>, i: nat) {
    i <= |items| && Holds(batch, base, items[..i])
  }

  lemma LoopStart(base: Labels, items: seq<Item>)
    ensures LoopOk(map[base := []], base, items, 0)
  {
    assert items[..0] == [];
    EmptyHolds(base);
  }

  lemma LoopStep(batch: Batch, base: Labels, items: seq<Item>, i: nat, b: Option<Batch>)
    requires LoopOk(batch, base, items, i) && i < |items|
    requires b == Put(batch, items[i].labels, AddAll(Current(batch, items[i].labels), items[i].samples))
    ensures b.Some? ==> LoopOk(b.value, base, items, i + 1)
    ensures b.None? ==> !InOrder(items)
  {
    assert items[..i + 1] == items[..i] + [items[i]];
    if b.Some? {
      AddKeeps(batch, base, items[..i], items[i]);
    } else {
      RefusedNotInOrder(batch, base, items[..i], items[i], items[i + 1..]);
      assert items[..i] + [items[i]] + items[i + 1..] == items;
    }
  }

  /** The write phase of every converter. */
  method Finish(storage: Storage, batch: Batch, ghost base: Labels, ghost items: seq<Item>) returns (outcome: Outcome)
    requires LoopOk(batch, base, items, |items|) && Contributing(items)
    modifies storage
    ensures outcome == OutcomeOf(items, |old(storage.attempts)|, storage.accepts)
    ensures storage.attempts == old(storage.attempts) + WritesOf(items, |old(storage.attempts)|, storage.accepts)
  {
    assert items[..|items|] == items;
    HoldsInOrder(batch, base, items);
    BatchIsGrouped(batch, base, items, LabelOrder(batch.Keys));
    var ok := WriteBatch(storage, batch);
    outcome := if ok then Done else WriteFailed;
  }

  method ConvertSum(storage: Storage, points: seq<NumberPoint>, base: Labels) returns (outcome: Outcome)
    modifies storage
    ensures outcome == OutcomeOf(NumberItems(base, points), |old(storage.attempts)|, storage.accepts)
    ensures storage.attempts
         == old(storage.attempts) + WritesOf(NumberItems(base, points), |old(storage.attempts)|, storage.accepts)
  {
    ghost var items := NumberItems(base, points);
    var batch: Batch := map[base := []];
    LoopStart(base, items);
    for i := 0 to |points|
      invariant LoopOk(batch, base, items, i)
      invariant storage.attempts == old(storage.attempts)
    {
      var point := points[i];
      var labels := base;
      if point.attributes != [] {
        labels := AppendAttributes(point.attributes, base);
      }
      var b := AddOne(batch, labels, Sample(Millis(point.timeUnixNano), point.asDouble));
      LoopStep(batch, base, items, i, b);
      if b.None? {
        return Thrown;
      }
      batch := b.value;
    }
    outcome := Finish(storage, batch, base, items);
  }

  // ------------------------------------------------------------------ the parallel pre-pass

  datatype PreProcessed = PreProcessed(labels: Labels, sample: Sample, useBase: bool)

  /** One loop iteration of some task of the parallel loop. */
  datatype Visit = Visit(task: nat, index: nat)

  /** Every point is visited; by how many tasks and in what order is up to the scheduler. */
  ghost predicate Covers(schedule: seq<Visit>, n: nat) {
    && (forall k :: 0 <= k < |schedule| ==> schedule[k].index < n)
    && (forall i :: 0 <= i < n ==> Visited(schedule, i))
  }

  ghost predicate Visited(schedule: seq<Visit>, i: nat) {
    exists k :: 0 <= k < |schedule| && schedule[k].index == i
  }

  ghost predicate Processed(p: PreProcessed, base: Labels, point: NumberPoint) {
    && p.sample == NumberSample(point)
    && p.useBase == (point.attributes == [])
    && (!p.useBase ==> p.labels == Overlay(point.attributes, base))
  }

  /** The pre-pass under an arbitrary schedule. Each task keeps one label map between its iterations,
      so the contents left over from another point must not leak into the next. */
  method PrePass(points: seq<NumberPoint>, base: Labels, schedule: seq<Visit>, processed: array<PreProcessed>)
    requires processed.Length == |points| && Covers(schedule, |points|)
    modifies processed
    ensures forall i :: 0 <= i < |points| ==> Processed(processed[i], base, points[i])
  {
    var locals: map<nat, Labels> := map[];
    for k := 0 to |schedule|
      invariant forall j :: 0 <= j < k ==> Processed(processed[schedule[j].index], base, points[schedule[j].index])
    {
      var t, i := schedule[k].task, schedule[k].index;
      var point := points[i];
      var sample := Sample(Millis(point.timeUnixNano), point.asDouble);
      if point.attributes == [] {
        processed[i] := PreProcessed(processed[i].labels, sample, true);
      } else {
        locals := locals[t := base];
        var labels := AppendAttributes(point.attributes, locals[t]);
        locals := locals[t := labels];
        processed[i] := PreProcessed(locals[t], sample, false);
      }
    }
    forall i | 0 <= i < |points| ensures Processed(processed[i], base, points[i]) {
      assert Visited(schedule, i);
      var k :| 0 <= k < |schedule| && schedule[k].index == i;
      assert Processed(processed[schedule[k].index], base, points[schedule[k].index]);
    }
  }

  /** For every schedule of the pre-pass, the gauge converter does exactly what the sum converter does
      on the same points. */
  method ConvertGauge(storage: Storage, points: seq<NumberPoint>, base: Labels, schedule: seq<Visit>) returns (outcome: Outcome)
    requires Covers(schedule, |points|)
    modifies storage
    ensures outcome == OutcomeOf(NumberItems(base, points), |old(storage.attempts)|, storage.accepts)
    ensures storage.attempts
         == old(storage.attempts) + WritesOf(NumberItems(base, points), |old(storage.attempts)|, storage.accepts)
  {
    ghost var items := NumberItems(base, points);
    if |points| == 0 {
      NothingToWrite(storage.accepts, |storage.attempts|);
      assert items == [];
      return Done;
    }
    var processed := new PreProcessed[|points|](_ => PreProcessed(map[], Sample(0, 0.0), true));
    PrePass(points, base, schedule, processed);
    var batch: Batch := map[base := []];
    LoopStart(base, items);
    for i := 0 to |points|
      invariant LoopOk(batch, base, items, i)
      invariant storage.attempts == old(storage.attempts)
      invariant forall j :: 0 <= j < |points| ==> Processed(processed[j], base, points[j])
    {
      var p := processed[i];
      var labels := if p.useBase then base else p.labels;
      var b := AddOne(batch, labels, p.sample);
      LoopStep(batch, base, items, i, b);
      if b.None? {
        return Thrown;
      }
      batch := b.value;
    }
    outcome := Finish(storage, batch, base, items);
  }

  lemma NothingToWrite(accepts: Environment, n: nat)
    ensures OutcomeOf([], n, accepts) == Done && WritesOf([], n, accepts) == []
  {
    assert LabelSets([]) == {};
    assert Grouped([]) == [];
  }

  // ------------------------------------------------------------------------ histograms

  /** After the first k samples of `all` have been added to the series that started as `start`. */
  ghost predicate Adding(b: Option<Batch>, batch: Batch, labels: Labels, start: seq<Sample>, all: seq<Sample>, k: nat) {
    k <= |all| && b == Put(batch, labels, AddAll(start, all[..k]))
  }

  method AddNext(current: Batch, labels: Labels, sample: Sample,
                 ghost batch: Batch, ghost start: seq<Sample>, ghost all: seq<Sample>, ghost k: nat) returns (b: Option<Batch>)
    requires k < |all| && all[k] == sample && Adding(Some(current), batch, labels, start, all, k)
    ensures Adding(b, batch, labels, start, all, k + 1)
    ensures b.None? ==> AddAll(start, all).None?
  {
    b := AddOne(current, labels, sample);
    PutTwice(batch, labels, AddAll(start, all[..k]).value, sample);
    AddAllConcat(start, all[..k], [sample]);
    assert all[..k + 1] == all[..k] + [sample];
    AddAllConcat(start, all[..k + 1], all[k + 1..]);
    assert all[..k + 1] + all[k + 1..] == all;
  }

  /** Find or create the series, then add count, sum and each bucket count, one at a time. */
  method AddHistogramPoint(batch: Batch, labels: Labels, p: HistogramPoint) returns (b: Option<Batch>)
    ensures b == Put(batch, labels, AddAll(Current(batch, labels), HistogramSamples(p)))
  {
    var ts := Millis(p.timeUnixNano);
    ghost var all := HistogramSamples(p);
    ghost var start := Current(batch, labels);
    var created := batch[labels := Current(batch, labels)];
    assert all[..0] == [];
    b := AddNext(created, labels, Sample(ts, p.count as real), batch, start, all, 0);
    if b.None? {
      return;
    }
    b := AddNext(b.value, labels, Sample(ts + 1, p.sum), batch, start, all, 1);
    if b.None? {
      return;
    }
    for i := 0 to |p.bucketCounts|
      invariant b.Some? && Adding(b, batch, labels, start, all, 2 + i)
    {
      b := AddNext(b.value, labels, Sample(ts + 2 + i, p.bucketCounts[i] as real), batch, start, all, 2 + i);
      if b.None? {
        return;
      }
    }
    assert all[..2 + |p.bucketCounts|] == all;
  }

  method ConvertHistogram(storage: Storage, points: seq<HistogramPoint>, base: Labels) returns (outcome: Outcome)
    modifies storage
    ensures outcome == OutcomeOf(HistogramItems(base, points), |old(storage.attempts)|, storage.accepts)
    ensures storage.attempts
         == old(storage.attempts) + WritesOf(HistogramItems(base, points), |old(storage.attempts)|, storage.accepts)
  {
    ghost var items := HistogramItems(base, points);
    var batch: Batch := map[base := []];
    LoopStart(base, items);
    for i := 0 to |points|
      invariant LoopOk(batch, base, items, i)
      invariant storage.attempts == old(storage.attempts)
    {
      var point := points[i];
      var labels := base;
      if point.attributes != [] {
        labels := AppendAttributes(point.attributes, base);
      }
      var b := AddHistogramPoint(batch, labels, point);
      LoopStep(batch, base, items, i, b);
      if b.None? {
        return Thrown;
      }
      batch := b.value;
    }
    outcome := Finish(storage, batch, base, items);
  }
}
