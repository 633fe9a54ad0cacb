/** `BridgeImpl::ConvertMetrics`, the second OpenTelemetry bridge: one series per metric, data point
    attributes ignored, and the first failed write or exception ends the request. */
module BridgeImpl {
  import opened Wrappers
  import opened Ordering
  import opened TimeSeries
  import opened Batching
  import opened StorageModel
  import opened OtelTypes
  import opened OtelBridge
  import opened OtelConvert
  import opened OtelRequest

  function NumberSamples(points: seq<NumberPoint>): seq<Sample> {
    seq(|points|, i requires 0 <= i < |points| => NumberSample(points[i]))
  }

  function AllHistogramSamples(points: seq<HistogramPoint>): seq<Sample> {
    if points == [] then [] else AllHistogramSamples(points[..|points| - 1]) + HistogramSamples(points[|points| - 1])
  }

  /** The samples of a metric, without regard to data point attributes. */
  function SamplesOf(data: Data): seq<Sample> {
    match data
    case Gauge(points) => NumberSamples(points)
    case Sum(points) => NumberSamples(points)
    case Histogram(points) => AllHistogramSamples(points)
    case Unsupported => []
  }

  /** `stopped` means that ConvertMetrics has returned an error. */
  datatype Answer = Answer(attempts: seq<Series>, stopped: bool)

  ghost function AfterMetric(p: Answer, f: Flat, accepts: Environment): Answer {
    var samples := SamplesOf(f.data);
    if p.stopped || f.data.Unsupported? then p
    else if AddAll([], samples).None? then p.(stopped := true)
    else if samples == [] then p
    else Answer(p.attempts + [Series(f.base, samples)], !accepts(|p.attempts|))
  }

  ghost function AfterAll(p: Answer, fs: seq<Flat>, accepts: Environment): Answer
    decreases |fs|
  {
    if fs == [] then p else AfterMetric(AfterAll(p, fs[..|fs| - 1], accepts), fs[|fs| - 1], accepts)
  }

  lemma {:induction false} AfterConcat(p: Answer, a: seq<Flat>, b: seq<Flat>, accepts: Environment)
    ensures AfterAll(p, a + b, accepts) == AfterAll(AfterAll(p, a, accepts), b, accepts)
    decreases |b|
  {
    if b == [] {
      assert a + b == a;
    } else {
      assert (a + b)[..|a + b| - 1] == a + b[..|b| - 1];
      AfterConcat(p, a, b[..|b| - 1], accepts);
    }
  }

  lemma {:induction false} StoppedStays(p: Answer, fs: seq<Flat>, accepts: Environment)
    requires p.stopped
    ensures AfterAll(p, fs, accepts) == p
    decreases |fs|
  {
    if fs != [] {
      StoppedStays(p, fs[..|fs| - 1], accepts);
    }
  }

  // ------------------------------------------------------------------ the loops

  method CollectSamples(data: Data) returns (samples: seq<Sample>)
    ensures samples == SamplesOf(data)
  {
    samples := [];
    match data
    case Gauge(points) => samples := CollectNumbers(points);
    case Sum(points) => samples := CollectNumbers(points);
    case Histogram(points) =>
      for i := 0 to |points|
        invariant samples == AllHistogramSamples(points[..i])
      {
        assert points[..i + 1][..i] == points[..i];
        var ts := Millis(points[i].timeUnixNano);
        ghost var before := samples;
        ghost var chunk := HistogramSamples(points[i]);
        samples := samples + [Sample(ts, points[i].count as real)] + [Sample(ts + 1, points[i].sum)];
        for j := 0 to |points[i].bucketCounts|
          invariant samples == before + chunk[..2 + j]
        {
          samples := samples + [Sample(ts + 2 + j, points[i].bucketCounts[j] as real)];
          assert chunk[..3 + j] == chunk[..2 + j] + [chunk[2 + j]];
        }
        assert chunk[..2 + |points[i].bucketCounts|] == chunk;
      }
      assert points[..|points|] == points;
    case Unsupported =>
  }

  method CollectNumbers(points: seq<NumberPoint>) returns (samples: seq<Sample>)
    ensures samples == NumberSamples(points)
  {
    samples := [];
    for i := 0 to |points|
      invariant samples == NumberSamples(points)[..i]
    {
      samples := samples + [Sample(Millis(points[i].timeUnixNano), points[i].asDouble)];
    }
  }

  /** add_sample for every collected sample; None means it threw. */
  method FillSeries(samples: seq<Sample>) returns (filled: Option<seq<Sample>>)
    ensures filled == AddAll([], samples)
  {
    var q: seq<Sample> := [];
    for i := 0 to |samples|
      invariant AddAll([], samples[..i]) == Some(q)
    {
      AddAllConcat([], samples[..i], [samples[i]]);
      assert samples[..i + 1] == samples[..i] + [samples[i]];
      AddAllOne(q, samples[i]);
      if q != [] && q[|q| - 1].timestamp >= samples[i].timestamp {
        RefusedEarly(samples, i + 1);
        return None;
      }
      q := q + [samples[i]];
    }
    assert samples[..|samples|] == samples;
    return Some(q);
  }

  lemma RefusedEarly(samples: seq<Sample>, i: nat)
    requires i <= |samples| && AddAll([], samples[..i]).None?
    ensures AddAll([], samples).None?
  {
    AddAllConcat([], samples[..i], samples[i..]);
    assert samples[..i] + samples[i..] == samples;
  }

  lemma FilledIsSame(samples: seq<Sample>)
    requires AddAll([], samples).Some?
    ensures AddAll([], samples) == Some(samples)
  {
    AddAllMeaning([], samples);
    assert [] + samples == samples;
  }

  method WriteMetric(storage: Storage, f: Flat) returns (stopped: bool)
    modifies storage
    ensures Answer(storage.attempts, stopped) == AfterMetric(Answer(old(storage.attempts), false), f, storage.accepts)
  {
    if f.data.Unsupported? {
      return false;
    }
    var samples := CollectSamples(f.data);
    var filled := FillSeries(samples);
    if filled.None? {
      return true;
    }
    FilledIsSame(samples);
    if samples == [] {
      return false;
    }
    var ok := storage.Write(Series(f.base, filled.value));
    return !ok;
  }

  method ProcessScope(storage: Storage, resource: Labels, s: ScopeMetrics) returns (stopped: bool)
    modifies storage
    ensures Answer(storage.attempts, stopped)
         == AfterAll(Answer(old(storage.attempts), false), FlatMetrics(resource, Overlay(s.attributes, map[]), s.metrics), storage.accepts)
  {
    var scope := AppendAttributes(s.attributes, map[]);
    ghost var fs := FlatMetrics(resource, scope, s.metrics);
    ghost var start := Answer(storage.attempts, false);
    for i := 0 to |s.metrics|
      invariant Answer(storage.attempts, false) == AfterAll(start, fs[..i], storage.accepts)
    {
      assert fs[..i + 1][..i] == fs[..i];
      stopped := WriteMetric(storage, Flat(BaseLabels(resource, scope, s.metrics[i].name), s.metrics[i].data));
      if stopped {
        assert fs == fs[..i + 1] + fs[i + 1..];
        AfterConcat(start, fs[..i + 1], fs[i + 1..], storage.accepts);
        StoppedStays(Answer(storage.attempts, true), fs[i + 1..], storage.accepts);
        return;
      }
    }
    assert fs[..|fs|] == fs;
    stopped := false;
  }

  method ProcessResource(storage: Storage, r: ResourceMetrics) returns (stopped: bool)
    modifies storage
    ensures Answer(storage.attempts, stopped)
         == AfterAll(Answer(old(storage.attempts), false), FlatScopes(Overlay(r.attributes, map[]), r.scopes), storage.accepts)
  {
    var resource := AppendAttributes(r.attributes, map[]);
    ghost var start := Answer(storage.attempts, false);
    for i := 0 to |r.scopes|
      invariant Answer(storage.attempts, false) == AfterAll(start, FlatScopes(resource, r.scopes[..i]), storage.accepts)
    {
      ghost var before := FlatScopes(resource, r.scopes[..i]);
      ghost var more := FlatMetrics(resource, Overlay(r.scopes[i].attributes, map[]), r.scopes[i].metrics);
      assert r.scopes[..i + 1][..i] == r.scopes[..i];
      AfterConcat(start, before, more, storage.accepts);
      stopped := ProcessScope(storage, resource, r.scopes[i]);
      if stopped {
        var rest := FlatScopesPrefix(resource, r.scopes, i + 1);
        AfterConcat(start, before + more, rest, storage.accepts);
        StoppedStays(Answer(storage.attempts, true), rest, storage.accepts);
        return;
      }
    }
    assert r.scopes[..|r.scopes|] == r.scopes;
    stopped := false;
  }

  method ConvertMetrics(storage: Storage, request: seq<ResourceMetrics>) returns (stopped: bool)
    modifies storage
    ensures Answer(storage.attempts, stopped)
         == AfterAll(Answer(old(storage.attempts), false), Flatten(request), storage.accepts)
  {
    ghost var start := Answer(storage.attempts, false);
    for i := 0 to |request|
      invariant Answer(storage.attempts, false) == AfterAll(start, Flatten(request[..i]), storage.accepts)
    {
      ghost var before := Flatten(request[..i]);
      ghost var more := FlatScopes(Overlay(request[i].attributes, map[]), request[i].scopes);
      assert request[..i + 1][..i] == request[..i];
      AfterConcat(start, before, more, storage.accepts);
      stopped := ProcessResource(storage, request[i]);
      if stopped {
        var rest := FlattenPrefix(request, i + 1);
        AfterConcat(start, before + more, rest, storage.accepts);
        StoppedStays(Answer(storage.attempts, true), rest, storage.accepts);
        return;
      }
    }
    assert request[..|request|] == request;
    stopped := false;
  }

  /** The same points, whatever their attributes. */
  ghost predicate SamePoints(d: Data, e: Data) {
    match d
    case Gauge(points) => e.Gauge? && SameNumbers(points, e.points)
    case Sum(points) => e.Sum? && SameNumbers(points, e.points)
    case Histogram(points) => e.Histogram? && SameHistograms(points, e.hpoints)
    case Unsupported => e.Unsupported?
  }

  ghost predicate SameNumbers(a: seq<NumberPoint>, b: seq<NumberPoint>) {
    |a| == |b| && forall i :: 0 <= i < |a| ==> a[i].(attributes := []) == b[i].(attributes := [])
  }

  ghost predicate SameHistograms(a: seq<HistogramPoint>, b: seq<HistogramPoint>) {
    |a| == |b| && forall i :: 0 <= i < |a| ==> a[i].(attributes := []) == b[i].(attributes := [])
  }

  lemma {:induction false} SameHistogramSamples(a: seq<HistogramPoint>, b: seq<HistogramPoint>)
    requires SameHistograms(a, b)
    ensures AllHistogramSamples(a) == AllHistogramSamples(b)
    decreases |a|
  {
    if a != [] {
      var n := |a| - 1;
      assert a[n].(attributes := []) == b[n].(attributes := []);
      SameHistogramSamples(a[..n], b[..n]);
      SamePoint(a[n], b[n]);
    }
  }

  lemma SamePoint(p: HistogramPoint, q: HistogramPoint)
    requires p.(attributes := []) == q.(attributes := [])
    ensures HistogramSamples(p) == HistogramSamples(q)
  {
    assert p.timeUnixNano == q.timeUnixNano && p.count == q.count && p.sum == q.sum && p.bucketCounts == q.bucketCounts;
  }

  /** The second bridge does the same whatever the attributes of the data points. */
  lemma AttributesIgnored(p: Answer, f: Flat, g: Flat, accepts: Environment)
    requires f.base == g.base && SamePoints(f.data, g.data)
    ensures AfterMetric(p, f, accepts) == AfterMetric(p, g, accepts)
  {
    assert SamplesOf(f.data) == SamplesOf(g.data) by {
      match f.data
      case Histogram(points) => SameHistogramSamples(points, g.data.hpoints);
      case Gauge(points) => SameNumberSamples(points, g.data.points);
      case Sum(points) => SameNumberSamples(points, g.data.points);
      case Unsupported =>
    }
  }

  lemma SameNumberSamples(a: seq<NumberPoint>, b: seq<NumberPoint>)
    requires SameNumbers(a, b)
    ensures NumberSamples(a) == NumberSamples(b)
  {
    forall i | 0 <= i < |a| ensures NumberSamples(a)[i] == NumberSamples(b)[i] {
      assert a[i].(attributes := []) == b[i].(attributes := []);
    }
  }

  // ------------------------------------------------------- the two bridges compared

  /** No data point of the metric carries attributes. */
  ghost predicate Plain(f: Flat) {
    match f.data
    case Gauge(points) => forall i :: 0 <= i < |points| ==> points[i].attributes == []
    case Sum(points) => forall i :: 0 <= i < |points| ==> points[i].attributes == []
    case Histogram(points) => forall i :: 0 <= i < |points| ==> points[i].attributes == []
    case Unsupported => true
  }

  lemma {:induction false} NumberGroup(base: Labels, points: seq<NumberPoint>)
    requires forall i :: 0 <= i < |points| ==> points[i].attributes == []
    ensures GroupOf(NumberItems(base, points), base) == NumberSamples(points)
    decreases |points|
  {
    if points != [] {
      var n := |points| - 1;
      NumberGroup(base, points[..n]);
      assert NumberItems(base, points)[..n] == NumberItems(base, points[..n]);
      assert NumberSamples(points) == NumberSamples(points[..n]) + [NumberSample(points[n])];
    }
  }

  lemma {:induction false} HistogramGroup(base: Labels, points: seq<HistogramPoint>)
    requires forall i :: 0 <= i < |points| ==> points[i].attributes == []
    ensures GroupOf(HistogramItems(base, points), base) == AllHistogramSamples(points)
    decreases |points|
  {
    if points != [] {
      var n := |points| - 1;
      HistogramGroup(base, points[..n]);
      assert HistogramItems(base, points)[..n] == HistogramItems(base, points[..n]);
    }
  }

  /** Without attributes all samples of a metric form one group under the base labels. */
  lemma PlainGroup(f: Flat)
    requires Plain(f)
    ensures GroupOf(ItemsOf(f), f.base) == SamplesOf(f.data)
    ensures LabelSets(ItemsOf(f)) == if SamplesOf(f.data) == [] then {} else {f.base}
  {
    var items := ItemsOf(f);
    match f.data {
      case Gauge(points) => NumberGroup(f.base, points);
      case Sum(points) => NumberGroup(f.base, points);
      case Histogram(points) => HistogramGroup(f.base, points);
      case Unsupported =>
    }
    assert forall i :: 0 <= i < |items| ==> items[i].labels == f.base && items[i].samples != [];
    if items == [] {
      assert LabelSets(items) == {};
    } else {
      assert items[0].labels == f.base;
      assert f.base in LabelSets(items);
      GroupNonEmpty(items, f.base);
      assert LabelSets(items) == {f.base};
    }
  }

  lemma OneLabelOrder(l: Labels)
    ensures LabelOrder({l}) == [l] && LabelOrder({}) == []
  {
    LabelsOrder();
    var q := LabelOrder({l});
    assert l in q && forall x :: x in q ==> x == l;
    SortedUnique(LabelsLess, q, [l]);
  }

  lemma PlainInOrder(f: Flat)
    requires Plain(f)
    ensures InOrder(ItemsOf(f)) <==> AddAll([], SamplesOf(f.data)).Some?
  {
    PlainGroup(f);
    AddAllMeaning([], SamplesOf(f.data));
    assert [] + SamplesOf(f.data) == SamplesOf(f.data);
  }

  lemma PlainGrouped(f: Flat)
    requires Plain(f)
    ensures Grouped(ItemsOf(f)) == if SamplesOf(f.data) == [] then [] else [Series(f.base, SamplesOf(f.data))]
  {
    PlainGroup(f);
    OneLabelOrder(f.base);
  }

  /** One metric without attributes, whatever the storage answers: the batching bridge attempts at most
      one series, the one the other bridge attempts, throws exactly when add_sample does, and fails
      exactly when the write does. */
  lemma PlainMetric(f: Flat, n: nat, accepts: Environment)
    requires Plain(f)
    ensures var samples := SamplesOf(f.data);
      && WritesOf(ItemsOf(f), n, accepts) == (if AddAll([], samples).Some? && samples != [] then [Series(f.base, samples)] else [])
      && OutcomeOf(ItemsOf(f), n, accepts)
         == if AddAll([], samples).None? then Thrown else if samples == [] || accepts(n) then Done else WriteFailed
  {
    var items, samples := ItemsOf(f), SamplesOf(f.data);
    assert InOrder(items) <==> AddAll([], samples).Some? by { PlainInOrder(f); }
    assert Grouped(items) == if samples == [] then [] else [Series(f.base, samples)] by { PlainGrouped(f); }
    OneWrite(Series(f.base, samples), n, accepts);
  }

  lemma OneWrite(s: Series, n: nat, accepts: Environment)
    ensures Attempted([s], n, accepts) == [s]
    ensures AllAccepted([s], n, accepts) <==> accepts(n)
  {
    assert [s][1..] == [];
  }

  lemma PlainStep(p: Progress, b: Answer, f: Flat, accepts: Environment)
    requires Plain(f) && b.attempts == p.attempts && !p.thrown && !b.stopped
    ensures var p', b' := OtelRequest.AfterMetric(p, f, accepts), AfterMetric(b, f, accepts);
      && b'.attempts == p'.attempts
      && (p'.thrown <==> !f.data.Unsupported? && AddAll([], SamplesOf(f.data)).None?)
      && (p'.thrown ==> b'.stopped)
      && (b'.stopped && !p'.thrown ==> |p.attempts| < |b'.attempts| && !accepts(|p.attempts|))
  {
    if !f.data.Unsupported? {
      PlainMetric(f, |p.attempts|, accepts);
    }
  }

  /** All of the calls from number n to number m were accepted. */
  ghost predicate AcceptedBetween(n: nat, m: nat, accepts: Environment) {
    forall i :: n <= i < m ==> accepts(i)
  }

  /** When no data point carries attributes, whatever the storage answers: the second bridge's write
      calls are a prefix of the batching bridge's; they are the same calls if it has not stopped; and
      if it has stopped although its calls were all accepted, they are again the same, and the
      batching bridge has thrown. */
  lemma {:induction false} BridgesCompared(fs: seq<Flat>, attempts: seq<Series>, processed: nat, dropped: nat, accepts: Environment)
    requires forall i :: 0 <= i < |fs| ==> Plain(fs[i])
    ensures var a := OtelRequest.AfterAll(Progress(attempts, processed, dropped, false), fs, accepts);
      var b := AfterAll(Answer(attempts, false), fs, accepts);
      && b.attempts <= a.attempts
      && (!b.stopped ==> b.attempts == a.attempts && !a.thrown)
      && attempts <= b.attempts
      && (b.stopped && AcceptedBetween(|attempts|, |b.attempts|, accepts) ==> b.attempts == a.attempts && a.thrown)
    decreases |fs|
  {
    if fs != [] {
      var n := |fs| - 1;
      BridgesCompared(fs[..n], attempts, processed, dropped, accepts);
      var a := OtelRequest.AfterAll(Progress(attempts, processed, dropped, false), fs[..n], accepts);
      var b := AfterAll(Answer(attempts, false), fs[..n], accepts);
      assert Plain(fs[n]);
      if b.stopped {
        MetricGrows(a, fs[n], accepts);
      } else {
        PlainStep(a, b, fs[n], accepts);
      }
    }
  }

  /** They part when a write fails: the second bridge gives up, the batching bridge drops that metric
      and goes on. */
  lemma BridgesPart(f: Flat, g: Flat, p: Progress, accepts: Environment)
    requires Plain(f) && Plain(g) && !p.thrown && !accepts(|p.attempts|)
    requires SamplesOf(f.data) != [] && Chronological(SamplesOf(f.data))
    requires SamplesOf(g.data) != [] && Chronological(SamplesOf(g.data))
    ensures var a := OtelRequest.AfterMetric(OtelRequest.AfterMetric(p, f, accepts), g, accepts);
      var b := AfterMetric(AfterMetric(Answer(p.attempts, false), f, accepts), g, accepts);
      && b.stopped && b.attempts == p.attempts + [Series(f.base, SamplesOf(f.data))]
      && !a.thrown && a.attempts == b.attempts + [Series(g.base, SamplesOf(g.data))]
  {
    Fillable(SamplesOf(f.data));
    Fillable(SamplesOf(g.data));
    PlainMetric(f, |p.attempts|, accepts);
    PlainMetric(g, |p.attempts| + 1, accepts);
  }

  lemma Fillable(samples: seq<Sample>)
    requires Chronological(samples)
    ensures AddAll([], samples).Some?
  {
    AddAllMeaning([], samples);
    assert [] + samples == samples;
  }

  /** When in addition the second bridge's writes succeed, both bridges make the same sequence of writes
      for every request, whatever its timestamps, and one fails exactly when the other does. */
  lemma BridgesAgree(fs: seq<Flat>, attempts: seq<Series>, processed: nat, dropped: nat, accepts: Environment)
    requires forall i :: 0 <= i < |fs| ==> Plain(fs[i])
    requires AcceptedBetween(|attempts|, |AfterAll(Answer(attempts, false), fs, accepts).attempts|, accepts)
    ensures var a := OtelRequest.AfterAll(Progress(attempts, processed, dropped, false), fs, accepts);
      var b := AfterAll(Answer(attempts, false), fs, accepts);
      a.attempts == b.attempts && a.thrown == b.stopped
  {
    BridgesCompared(fs, attempts, processed, dropped, accepts);
  }
}
