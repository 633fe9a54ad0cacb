/** What the bridges store for a request, in terms of the message: the samples of a data point, the
    labels of a metric, and what the counters count. */
module OtelLaws {
  import opened TimeSeries
  import opened Batching
  import opened StorageModel
  import opened OtelTypes
  import opened OtelBridge
  import opened OtelRequest
  import Spacing
  import BridgeImpl

  // --------------------------------------------------------------------------- data points

  /** The millisecond that a time in nanoseconds falls into. */
  predicate InMillisecond(nanos: nat, ms: nat) {
    ms * 1000000 <= nanos < (ms + 1) * 1000000
  }

  lemma MillisMeaning(nanos: nat, ms: nat)
    ensures InMillisecond(nanos, ms) <==> ms == Millis(nanos)
  {
  }

  /** A gauge or sum point is stored as its value at its millisecond, under the base labels overlaid
      with its attributes. */
  lemma NumberPointStored(base: Labels, p: NumberPoint, ms: nat, n: nat, accepts: Environment)
    requires InMillisecond(p.timeUnixNano, ms)
    ensures NumberItem(base, p) == Item(Overlay(p.attributes, base), [Sample(ms, p.asDouble)])
    ensures WritesOf(NumberItems(base, [p]), n, accepts) == [Series(Overlay(p.attributes, base), [Sample(ms, p.asDouble)])]
  {
    MillisMeaning(p.timeUnixNano, ms);
    assert NumberItems(base, [p]) == [NumberItem(base, p)];
    OneItemWritten(NumberItem(base, p), n, accepts);
  }

  /** A histogram point stands for its count, its sum and its bucket counts, in this order, at successive
      milliseconds from its own, under the base labels overlaid with its attributes. */
  lemma HistogramPointSamples(base: Labels, p: HistogramPoint, ms: nat)
    requires InMillisecond(p.timeUnixNano, ms)
    ensures var x := HistogramItem(base, p);
      && x.labels == Overlay(p.attributes, base) && |x.samples| == 2 + |p.bucketCounts|
      && x.samples[0] == Sample(ms, p.count as real)
      && x.samples[1] == Sample(ms + 1, p.sum)
      && (forall i :: 0 <= i < |p.bucketCounts| ==> x.samples[2 + i] == Sample(ms + 2 + i, p.bucketCounts[i] as real))
  {
    MillisMeaning(p.timeUnixNano, ms);
  }

  /** These samples are what is stored for it. */
  lemma HistogramPointStored(base: Labels, p: HistogramPoint, n: nat, accepts: Environment)
    ensures WritesOf(HistogramItems(base, [p]), n, accepts) == [Series(HistogramItem(base, p).labels, HistogramItem(base, p).samples)]
  {
    var x := HistogramItem(base, p);
    assert x.samples != [] && Chronological(x.samples) by { Spacing.HistogramSpan(p); }
    assert HistogramItems(base, [p]) == [x];
    OneItemWritten(x, n, accepts);
  }

  lemma OneItemWritten(x: Item, n: nat, accepts: Environment)
    requires x.samples != [] && Chronological(x.samples)
    ensures WritesOf([x], n, accepts) == [Series(x.labels, x.samples)]
    ensures OutcomeOf([x], n, accepts) == if accepts(n) then Done else WriteFailed
  {
    assert LabelSets([x]) == {x.labels} by { assert [x][0].labels == x.labels; }
    assert GroupOf([x], x.labels) == x.samples by { assert [x][..0] == []; }
    BridgeImpl.OneLabelOrder(x.labels);
    assert Grouped([x]) == [Series(x.labels, x.samples)];
    BridgeImpl.OneWrite(Series(x.labels, x.samples), n, accepts);
  }

  // ------------------------------------------------------------------------------- requests

  function ScopeCount(scopes: seq<ScopeMetrics>): nat {
    if scopes == [] then 0 else ScopeCount(scopes[..|scopes| - 1]) + |scopes[|scopes| - 1].metrics|
  }

  function RequestCount(request: seq<ResourceMetrics>): nat {
    if request == [] then 0 else RequestCount(request[..|request| - 1]) + ScopeCount(request[|request| - 1].scopes)
  }

  /** The place of metric m of scope c of resource r among all metrics of the request. */
  function Place(request: seq<ResourceMetrics>, r: nat, c: nat, m: nat): nat
    requires Names(request, r, c, m)
  {
    RequestCount(request[..r]) + ScopeCount(request[r].scopes[..c]) + m
  }

  predicate Names(request: seq<ResourceMetrics>, r: nat, c: nat, m: nat) {
    r < |request| && c < |request[r].scopes| && m < |request[r].scopes[c].metrics|
  }

  lemma {:induction false} FlatScopesSize(resource: Labels, scopes: seq<ScopeMetrics>)
    ensures |FlatScopes(resource, scopes)| == ScopeCount(scopes)
    decreases |scopes|
  {
    if scopes != [] {
      FlatScopesSize(resource, scopes[..|scopes| - 1]);
    }
  }

  lemma Middle(a: seq<Flat>, b: seq<Flat>, c: seq<Flat>, j: nat)
    requires j < |b|
    ensures (a + b + c)[|a| + j] == b[j]
  {
  }

  lemma FlatScopesAt(resource: Labels, scopes: seq<ScopeMetrics>, c: nat, m: nat)
    requires c < |scopes| && m < |scopes[c].metrics|
    ensures var j, f := ScopeCount(scopes[..c]) + m, FlatScopes(resource, scopes);
      j < |f| && f[j] == Flat(BaseLabels(resource, Overlay(scopes[c].attributes, map[]), scopes[c].metrics[m].name), scopes[c].metrics[m].data)
  {
    var rest := FlatScopesPrefix(resource, scopes, c + 1);
    assert scopes[..c + 1][..c] == scopes[..c];
    FlatScopesSize(resource, scopes[..c]);
    var before, own := FlatScopes(resource, scopes[..c]), FlatMetrics(resource, Overlay(scopes[c].attributes, map[]), scopes[c].metrics);
    assert FlatScopes(resource, scopes) == before + own + rest;
    Middle(before, own, rest, m);
  }

  lemma {:induction false} FlattenSize(request: seq<ResourceMetrics>)
    ensures |Flatten(request)| == RequestCount(request)
    decreases |request|
  {
    if request != [] {
      var n := |request| - 1;
      FlattenSize(request[..n]);
      FlatScopesSize(Overlay(request[n].attributes, map[]), request[n].scopes);
    }
  }

  /** Both bridges visit the metrics of a request in order, each with the labels of its own resource and
      scope and with its own data. */
  lemma FlattenAt(request: seq<ResourceMetrics>, r: nat, c: nat, m: nat)
    requires Names(request, r, c, m)
    ensures var scope := request[r].scopes[c];
      && |Flatten(request)| == RequestCount(request)
      && Place(request, r, c, m) < |Flatten(request)|
      && Flatten(request)[Place(request, r, c, m)]
         == Flat(BaseLabels(Overlay(request[r].attributes, map[]), Overlay(scope.attributes, map[]), scope.metrics[m].name), scope.metrics[m].data)
  {
    FlattenSize(request);
    var resource, scopes := Overlay(request[r].attributes, map[]), request[r].scopes;
    var rest := FlattenPrefix(request, r + 1);
    assert request[..r + 1][..r] == request[..r];
    FlattenSize(request[..r]);
    FlatScopesAt(resource, scopes, c, m);
    var before, own := Flatten(request[..r]), FlatScopes(resource, scopes);
    assert Flatten(request) == before + own + rest;
    var j := ScopeCount(scopes[..c]) + m;
    Middle(before, own, rest, j);
  }

  /** The base labels of each metric of a request: the name is the metric's; any other label comes from
      the last supported attribute of its resource, failing that from its scope's; there are no others. */
  lemma MetricLabels(request: seq<ResourceMetrics>, r: nat, c: nat, m: nat, k: string, i: nat)
    requires Names(request, r, c, m)
    ensures Place(request, r, c, m) < |Flatten(request)|
    ensures var resource, scope, base := request[r].attributes, request[r].scopes[c].attributes, Flatten(request)[Place(request, r, c, m)].base;
      && "__name__" in base && base["__name__"] == request[r].scopes[c].metrics[m].name
      && (k != "__name__" && LastSetter(resource, k, i) ==> k in base && base[k] == Rendered(resource[i].value).value)
      && (k != "__name__" && NoSetter(resource, k) && LastSetter(scope, k, i) ==> k in base && base[k] == Rendered(scope[i].value).value)
      && (k != "__name__" && NoSetter(resource, k) && NoSetter(scope, k) ==> k !in base)
  {
    FlattenAt(request, r, c, m);
    var s := request[r].scopes[c];
    Precedence([], request[r].attributes, s.attributes, s.metrics[m].name, k, i);
    Precedence([], request[r].attributes, s.attributes, s.metrics[m].name, "__name__", i);
  }

  // ------------------------------------------------------------------------------- counters

  /** The metric is supported, none of its series goes back in time, and all its writes, the first being
      call n, are accepted. */
  ghost predicate Succeeds(f: Flat, n: nat, accepts: Environment) {
    !f.data.Unsupported? && InOrder(ItemsOf(f)) && AllAccepted(Grouped(ItemsOf(f)), n, accepts)
  }

  /** The metric is unsupported, or one of its writes fails. */
  ghost predicate Fails(f: Flat, n: nat, accepts: Environment) {
    f.data.Unsupported? || (InOrder(ItemsOf(f)) && !AllAccepted(Grouped(ItemsOf(f)), n, accepts))
  }

  /** One of the metric's series goes back in time. */
  ghost predicate Throws(f: Flat) {
    !f.data.Unsupported? && !InOrder(ItemsOf(f))
  }

  /** How many of the metrics reached before an exception succeed. */
  ghost function Successes(p: Progress, fs: seq<Flat>, accepts: Environment): nat
    decreases |fs|
  {
    if fs == [] then 0
    else
      var n := |fs| - 1;
      var before := AfterAll(p, fs[..n], accepts);
      Successes(p, fs[..n], accepts) + if !before.thrown && Succeeds(fs[n], |before.attempts|, accepts) then 1 else 0
  }

  /** How many of the metrics reached before an exception fail. */
  ghost function Failures(p: Progress, fs: seq<Flat>, accepts: Environment): nat
    decreases |fs|
  {
    if fs == [] then 0
    else
      var n := |fs| - 1;
      var before := AfterAll(p, fs[..n], accepts);
      Failures(p, fs[..n], accepts) + if !before.thrown && Fails(fs[n], |before.attempts|, accepts) then 1 else 0
  }

  lemma MetricOutcome(p: Progress, f: Flat, accepts: Environment)
    ensures var r, n := AfterMetric(p, f, accepts), |p.attempts|;
      && (r.thrown <==> p.thrown || Throws(f))
      && r.processed == p.processed + (if !p.thrown && Succeeds(f, n, accepts) then 1 else 0)
      && r.dropped == p.dropped + (if !p.thrown && Fails(f, n, accepts) then 1 else 0)
  {
  }

  /** The processed counter counts the metrics that succeed, the dropped counter those that fail. */
  lemma {:induction false} CountersMeaning(p: Progress, fs: seq<Flat>, accepts: Environment)
    ensures AfterAll(p, fs, accepts).processed == p.processed + Successes(p, fs, accepts)
    ensures AfterAll(p, fs, accepts).dropped == p.dropped + Failures(p, fs, accepts)
    decreases |fs|
  {
    if fs != [] {
      var front, last := fs[..|fs| - 1], fs[|fs| - 1];
      CountersMeaning(p, front, accepts);
      MetricOutcome(AfterAll(p, front, accepts), last, accepts);
    }
  }

  ghost predicate AnyThrows(fs: seq<Flat>) {
    fs != [] && (AnyThrows(fs[..|fs| - 1]) || Throws(fs[|fs| - 1]))
  }

  lemma {:induction false} AnyThrowsIff(fs: seq<Flat>)
    ensures AnyThrows(fs) <==> exists i :: 0 <= i < |fs| && Throws(fs[i])
    decreases |fs|
  {
    if fs != [] {
      var front := fs[..|fs| - 1];
      AnyThrowsIff(front);
      assert forall i :: 0 <= i < |front| ==> front[i] == fs[i];
    }
  }

  lemma {:induction false} ThrownIfAny(p: Progress, fs: seq<Flat>, accepts: Environment)
    requires !p.thrown
    ensures AfterAll(p, fs, accepts).thrown <==> AnyThrows(fs)
    decreases |fs|
  {
    if fs != [] {
      var front, last := fs[..|fs| - 1], fs[|fs| - 1];
      ThrownIfAny(p, front, accepts);
      MetricOutcome(AfterAll(p, front, accepts), last, accepts);
    }
  }

  /** A request ends with an exception if and only if one of its metrics throws. */
  lemma ThrownIff(p: Progress, fs: seq<Flat>, accepts: Environment)
    requires !p.thrown
    ensures AfterAll(p, fs, accepts).thrown <==> exists i :: 0 <= i < |fs| && Throws(fs[i])
  {
    ThrownIfAny(p, fs, accepts);
    AnyThrowsIff(fs);
  }
}
