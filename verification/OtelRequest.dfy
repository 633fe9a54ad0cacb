/** Whole requests: the metrics of a request in the order both OpenTelemetry bridges visit them, and
    the loops of the batching bridge over resources, scopes and metrics. */
module OtelRequest {
  import opened TimeSeries
  import opened Batching
  import opened StorageModel
  import opened OtelTypes
  import opened OtelBridge
  import opened OtelConvert

  /** A metric with the labels shared by its points. */
  datatype Flat = Flat(base: Labels, data: Data)

  function FlatMetrics(resource: Labels, scope: Labels, metrics: seq<Metric>): seq<Flat> {
    seq(|metrics|, i requires 0 <= i < |metrics| => Flat(BaseLabels(resource, scope, metrics[i].name), metrics[i].data))
  }

  function FlatScopes(resource: Labels, scopes: seq<ScopeMetrics>): seq<Flat> {
    if scopes == [] then []
    else
      var n := |scopes| - 1;
      FlatScopes(resource, scopes[..n]) + FlatMetrics(resource, Overlay(scopes[n].attributes, map[]), scopes[n].metrics)
  }

  /** The metrics of a request in the order both bridges visit them. */
  function Flatten(request: seq<ResourceMetrics>): seq<Flat> {
    if request == [] then []
    else
      var n := |request| - 1;
      Flatten(request[..n]) + FlatScopes(Overlay(request[n].attributes, map[]), request[n].scopes)
  }

  function ItemsOf(f: Flat): seq<Item> {
    match f.data
    case Gauge(points) => NumberItems(f.base, points)
    case Sum(points) => NumberItems(f.base, points)
    case Histogram(points) => HistogramItems(f.base, points)
    case Unsupported => []
  }

  // ------------------------------------------------------------------ the batching bridge

  /** What the batching bridge has done so far; `thrown` means an exception left ConvertMetrics. */
  datatype Progress = Progress(attempts: seq<Series>, processed: nat, dropped: nat, thrown: bool)

  ghost function AfterMetric(p: Progress, f: Flat, accepts: Environment): Progress {
    if p.thrown then p
    else if f.data.Unsupported? then p.(dropped := p.dropped + 1)
    else
      var ws := WritesOf(ItemsOf(f), |p.attempts|, accepts);
      match OutcomeOf(ItemsOf(f), |p.attempts|, accepts)
      case Thrown => p.(thrown := true)
      case WriteFailed => p.(attempts := p.attempts + ws, dropped := p.dropped + 1)
      case Done => p.(attempts := p.attempts + ws, processed := p.processed + 1)
  }

  ghost function AfterAll(p: Progress, fs: seq<Flat>, accepts: Environment): Progress
    decreases |fs|
  {
    if fs == [] then p else AfterMetric(AfterAll(p, fs[..|fs| - 1], accepts), fs[|fs| - 1], accepts)
  }

  lemma {:induction false} AfterConcat(p: Progress, a: seq<Flat>, b: seq<Flat>, accepts: Environment)
    ensures AfterAll(p, a + b, accepts) == AfterAll(AfterAll(p, a, accepts), b, accepts)
    decreases |b|
  {
    if b == [] {
      assert a + b == a;
    } else {
      assert (a + b)[..|a + b| - 1] == a + b[..|b| - 1];
      AfterConcat(p, a, b[..|b| - 1], accepts);
    }
  }

  class OTELMetricsBridge {
    const storage: Storage
    const scheduler: nat -> seq<Visit>  // how the parallel loop over n points happens to run
    var processed: nat
    var dropped: nat

    constructor (storage: Storage, scheduler: nat -> seq<Visit>)
      ensures this.storage == storage && this.scheduler == scheduler && processed == 0 && dropped == 0
    {
      this.storage, this.scheduler := storage, scheduler;
      processed, dropped := 0, 0;
    }

    /** tbb::parallel_for visits every index. */
    ghost predicate Valid() {
      forall n {:trigger scheduler(n)} :: Covers(scheduler(n), n)
    }

    ghost function At(thrown: bool): Progress
      reads this, storage
    {
      Progress(storage.attempts, processed, dropped, thrown)
    }

    method ConvertMetric(f: Flat) returns (outcome: Outcome)
      requires Valid() && !f.data.Unsupported?
      modifies storage
      ensures outcome == OutcomeOf(ItemsOf(f), |old(storage.attempts)|, storage.accepts)
      ensures storage.attempts == old(storage.attempts) + WritesOf(ItemsOf(f), |old(storage.attempts)|, storage.accepts)
    {
      match f.data
      case Gauge(points) => outcome := ConvertGauge(storage, points, f.base, scheduler(|points|));
      case Sum(points) => outcome := ConvertSum(storage, points, f.base);
      case Histogram(points) => outcome := ConvertHistogram(storage, points, f.base);
    }

    /** One iteration of the metric loop. */
    method ProcessMetric(f: Flat) returns (thrown: bool)
      requires Valid()
      modifies this, storage
      ensures At(thrown) == AfterMetric(old(At(false)), f, storage.accepts)
    {
      if f.data.Unsupported? {
        dropped := dropped + 1;
        return false;
      }
      var outcome := ConvertMetric(f);
      match outcome
      case Thrown => return true;
      case WriteFailed => dropped := dropped + 1; return false;
      case Done => processed := processed + 1; return false;
    }

    method ProcessScope(resource: Labels, s: ScopeMetrics) returns (thrown: bool)
      requires Valid()
      modifies this, storage
      ensures At(thrown) == AfterAll(old(At(false)), FlatMetrics(resource, Overlay(s.attributes, map[]), s.metrics), storage.accepts)
    {
      var scope := AppendAttributes(s.attributes, map[]);
      ghost var fs := FlatMetrics(resource, scope, s.metrics);
      ghost var start := At(false);
      thrown := false;
      for i := 0 to |s.metrics|
        invariant !thrown && At(false) == AfterAll(start, fs[..i], storage.accepts)
      {
        AfterNext(start, fs, i, storage.accepts);
        thrown := ProcessMetric(Flat(BaseLabels(resource, scope, s.metrics[i].name), s.metrics[i].data));
        if thrown {
          ThrownAt(start, fs, i + 1, storage.accepts);
          return;
        }
      }
      assert fs[..|fs|] == fs;
    }

    method ProcessResource(r: ResourceMetrics) returns (thrown: bool)
      requires Valid()
      modifies this, storage
      ensures At(thrown) == AfterAll(old(At(false)), FlatScopes(Overlay(r.attributes, map[]), r.scopes), storage.accepts)
    {
      var resource := AppendAttributes(r.attributes, map[]);
      ghost var start := At(false);
      thrown := false;
      for i := 0 to |r.scopes|
        invariant !thrown && At(false) == AfterAll(start, FlatScopes(resource, r.scopes[..i]), storage.accepts)
      {
        AfterNextScope(start, resource, r.scopes, i, storage.accepts);
        thrown := ProcessScope(resource, r.scopes[i]);
        if thrown {
          ThrownInScope(start, resource, r.scopes, i + 1, storage.accepts);
          return;
        }
      }
      assert r.scopes[..|r.scopes|] == r.scopes;
    }

    /** ConvertMetrics: metrics are converted in request order; a failed or unsupported metric is
        counted as dropped and the rest goes on; an exception ends the request. */
    method ConvertMetrics(request: seq<ResourceMetrics>) returns (thrown: bool)
      requires Valid()
      modifies this, storage
      ensures At(thrown) == AfterAll(old(At(false)), Flatten(request), storage.accepts)
    {
      ghost var start := At(false);
      thrown := false;
      for i := 0 to |request|
        invariant !thrown && At(false) == AfterAll(start, Flatten(request[..i]), storage.accepts)
      {
        AfterNextResource(start, request, i, storage.accepts);
        thrown := ProcessResource(request[i]);
        if thrown {
          ThrownInResource(start, request, i + 1, storage.accepts);
          return;
        }
      }
      assert request[..|request|] == request;
    }
  }

  lemma {:induction false} ThrownStays(p: Progress, fs: seq<Flat>, accepts: Environment)
    requires p.thrown
    ensures AfterAll(p, fs, accepts) == p
    decreases |fs|
  {
    if fs != [] {
      ThrownStays(p, fs[..|fs| - 1], accepts);
    }
  }

  lemma AfterNext(p: Progress, fs: seq<Flat>, i: nat, accepts: Environment)
    requires i < |fs|
    ensures AfterAll(p, fs[..i + 1], accepts) == AfterMetric(AfterAll(p, fs[..i], accepts), fs[i], accepts)
  {
    assert fs[..i + 1][..i] == fs[..i];
  }

  lemma ThrownAt(p: Progress, fs: seq<Flat>, i: nat, accepts: Environment)
    requires i <= |fs| && AfterAll(p, fs[..i], accepts).thrown
    ensures AfterAll(p, fs, accepts) == AfterAll(p, fs[..i], accepts)
  {
    assert fs == fs[..i] + fs[i..];
    AfterConcat(p, fs[..i], fs[i..], accepts);
    ThrownStays(AfterAll(p, fs[..i], accepts), fs[i..], accepts);
  }

  lemma AfterNextScope(p: Progress, resource: Labels, scopes: seq<ScopeMetrics>, i: nat, accepts: Environment)
    requires i < |scopes|
    ensures AfterAll(p, FlatScopes(resource, scopes[..i + 1]), accepts)
         == AfterAll(AfterAll(p, FlatScopes(resource, scopes[..i]), accepts),
                     FlatMetrics(resource, Overlay(scopes[i].attributes, map[]), scopes[i].metrics), accepts)
  {
    assert scopes[..i + 1][..i] == scopes[..i];
    AfterConcat(p, FlatScopes(resource, scopes[..i]), FlatMetrics(resource, Overlay(scopes[i].attributes, map[]), scopes[i].metrics), accepts);
  }

  lemma ThrownInScope(p: Progress, resource: Labels, scopes: seq<ScopeMetrics>, i: nat, accepts: Environment)
    requires i <= |scopes| && AfterAll(p, FlatScopes(resource, scopes[..i]), accepts).thrown
    ensures AfterAll(p, FlatScopes(resource, scopes), accepts) == AfterAll(p, FlatScopes(resource, scopes[..i]), accepts)
  {
    var rest := FlatScopesPrefix(resource, scopes, i);
    AfterConcat(p, FlatScopes(resource, scopes[..i]), rest, accepts);
    ThrownStays(AfterAll(p, FlatScopes(resource, scopes[..i]), accepts), rest, accepts);
  }

  lemma AfterNextResource(p: Progress, request: seq<ResourceMetrics>, i: nat, accepts: Environment)
    requires i < |request|
    ensures AfterAll(p, Flatten(request[..i + 1]), accepts)
         == AfterAll(AfterAll(p, Flatten(request[..i]), accepts),
                     FlatScopes(Overlay(request[i].attributes, map[]), request[i].scopes), accepts)
  {
    assert request[..i + 1][..i] == request[..i];
    AfterConcat(p, Flatten(request[..i]), FlatScopes(Overlay(request[i].attributes, map[]), request[i].scopes), accepts);
  }

  lemma ThrownInResource(p: Progress, request: seq<ResourceMetrics>, i: nat, accepts: Environment)
    requires i <= |request| && AfterAll(p, Flatten(request[..i]), accepts).thrown
    ensures AfterAll(p, Flatten(request), accepts) == AfterAll(p, Flatten(request[..i]), accepts)
  {
    var rest := FlattenPrefix(request, i);
    AfterConcat(p, Flatten(request[..i]), rest, accepts);
    ThrownStays(AfterAll(p, Flatten(request[..i]), accepts), rest, accepts);
  }

  lemma Regroup(a: seq<Flat>, b: seq<Flat>, c: seq<Flat>)
    ensures (a + b) + c == a + (b + c)
  {
  }

  lemma {:induction false} FlatScopesPrefix(resource: Labels, scopes: seq<ScopeMetrics>, i: nat) returns (rest: seq<Flat>)
    requires i <= |scopes|
    ensures FlatScopes(resource, scopes) == FlatScopes(resource, scopes[..i]) + rest
    decreases |scopes|
  {
    if i == |scopes| {
      assert scopes[..i] == scopes;
      rest := [];
    } else {
      var n := |scopes| - 1;
      var front, last := scopes[..n], FlatMetrics(resource, Overlay(scopes[n].attributes, map[]), scopes[n].metrics);
      var middle := FlatScopesPrefix(resource, front, i);
      assert front[..i] == scopes[..i];
      rest := middle + last;
      Regroup(FlatScopes(resource, scopes[..i]), middle, last);
    }
  }

  lemma {:induction false} FlattenPrefix(request: seq<ResourceMetrics>, i: nat) returns (rest: seq<Flat>)
    requires i <= |request|
    ensures Flatten(request) == Flatten(request[..i]) + rest
    decreases |request|
  {
    if i == |request| {
      assert request[..i] == request;
      rest := [];
    } else {
      var n := |request| - 1;
      var front, last := request[..n], FlatScopes(Overlay(request[n].attributes, map[]), request[n].scopes);
      var middle := FlattenPrefix(front, i);
      assert front[..i] == request[..i];
      rest := middle + last;
      Regroup(Flatten(request[..i]), middle, last);
    }
  }

  lemma MetricGrows(p: Progress, f: Flat, accepts: Environment)
    ensures p.attempts <= AfterMetric(p, f, accepts).attempts
    ensures p.thrown ==> AfterMetric(p, f, accepts) == p
  {
    var outcome, ws := OutcomeOf(ItemsOf(f), |p.attempts|, accepts), WritesOf(ItemsOf(f), |p.attempts|, accepts);
    assert p.attempts <= p.attempts + ws;
  }

  lemma MetricCounted(p: Progress, f: Flat, accepts: Environment)
    ensures var r := AfterMetric(p, f, accepts);
      !r.thrown ==> r.processed + r.dropped == p.processed + p.dropped + 1
  {
  }

  /** Every metric visited before an exception is counted exactly once, as processed or dropped. */
  lemma {:induction false} CountersAddUp(p: Progress, fs: seq<Flat>, accepts: Environment)
    requires !p.thrown
    ensures var r := AfterAll(p, fs, accepts);
      && p.attempts <= r.attempts
      && (!r.thrown ==> r.processed + r.dropped == p.processed + p.dropped + |fs|)
    decreases |fs|
  {
    if fs != [] {
      CountersAddUp(p, fs[..|fs| - 1], accepts);
      var q, f := AfterAll(p, fs[..|fs| - 1], accepts), fs[|fs| - 1];
      MetricGrows(q, f, accepts);
      MetricCounted(q, f, accepts);
    }
  }
}
