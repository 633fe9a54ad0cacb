/** OpenTelemetry messages as far as the bridges read them, and their translation into labels and
    samples. The text of a number is the result of std::to_string and is taken as given. */
module OtelTypes {
  import opened Wrappers
  import opened TimeSeries
  import opened Batching

  datatype AnyValue = StringValue(text: string) | BoolValue(flag: bool) | IntValue(text: string) | DoubleValue(text: string) | OtherValue
  datatype KeyValue = KeyValue(key: string, value: AnyValue)

  datatype NumberPoint = NumberPoint(attributes: seq<KeyValue>, timeUnixNano: nat, asDouble: real)
  datatype HistogramPoint = HistogramPoint(attributes: seq<KeyValue>, timeUnixNano: nat, count: nat, sum: real, bucketCounts: seq<nat>)

  datatype Data = Gauge(points: seq<NumberPoint>) | Sum(points: seq<NumberPoint>) | Histogram(hpoints: seq<HistogramPoint>) | Unsupported
  datatype Metric = Metric(name: string, data: Data)
  datatype ScopeMetrics = ScopeMetrics(attributes: seq<KeyValue>, metrics: seq<Metric>)
  datatype ResourceMetrics = ResourceMetrics(attributes: seq<KeyValue>, scopes: seq<ScopeMetrics>)

  function Rendered(v: AnyValue): Option<string> {
    match v
    case StringValue(text) => Some(text)
    case BoolValue(flag) => Some(if flag then "true" else "false")
    case IntValue(text) => Some(text)
    case DoubleValue(text) => Some(text)
    case OtherValue => None
  }

  /** Attributes written over existing labels; later attributes win, unsupported ones are skipped. */
  function Overlay(attributes: seq<KeyValue>, labels: Labels): Labels {
    if attributes == [] then labels
    else
      var n := |attributes| - 1;
      var before := Overlay(attributes[..n], labels);
      var r := Rendered(attributes[n].value);
      if r.Some? then before[attributes[n].key := r.value] else before
  }

  predicate Sets(a: KeyValue, k: string) {
    a.key == k && Rendered(a.value).Some?
  }

  /** The last supported attribute with a key decides that label. */
  lemma {:induction false} OverlayLast(attributes: seq<KeyValue>, labels: Labels, k: string, i: nat)
    requires i < |attributes| && Sets(attributes[i], k)
    requires forall j :: i < j < |attributes| ==> !Sets(attributes[j], k)
    ensures k in Overlay(attributes, labels) && Overlay(attributes, labels)[k] == Rendered(attributes[i].value).value
    decreases |attributes|
  {
    var n := |attributes| - 1;
    if i < n {
      OverlayLast(attributes[..n], labels, k, i);
    }
  }

  /** A label no attribute sets stays as it was. */
  lemma {:induction false} OverlayOther(attributes: seq<KeyValue>, labels: Labels, k: string)
    requires forall j :: 0 <= j < |attributes| ==> !Sets(attributes[j], k)
    ensures k in Overlay(attributes, labels) <==> k in labels
    ensures k in labels ==> Overlay(attributes, labels)[k] == labels[k]
    decreases |attributes|
  {
    if attributes != [] {
      var n := |attributes| - 1;
      assert !Sets(attributes[n], k);
      OverlayOther(attributes[..n], labels, k);
    }
  }

  /** Labels shared by all points of a metric. `insert` keeps existing entries, so resource
      attributes win over scope attributes; the metric name wins over both. */
  function BaseLabels(resource: Labels, scope: Labels, name: string): Labels {
    (scope + resource)[NAME := name]
  }

  /** Precedence of effective labels, from the strongest: the point's last supported attribute, the
      metric name, the resource's last supported attribute, the scope's. */
  lemma Precedence(point: seq<KeyValue>, resource: seq<KeyValue>, scope: seq<KeyValue>, name: string, k: string, i: nat)
    ensures var all := Overlay(point, BaseLabels(Overlay(resource, map[]), Overlay(scope, map[]), name));
      && (LastSetter(point, k, i) ==> k in all && all[k] == Rendered(point[i].value).value)
      && (NoSetter(point, k) && k == "__name__" ==> k in all && all[k] == name)
      && (NoSetter(point, k) && k != "__name__" && LastSetter(resource, k, i) ==> k in all && all[k] == Rendered(resource[i].value).value)
      && (NoSetter(point, k) && k != "__name__" && NoSetter(resource, k) && LastSetter(scope, k, i) ==>
            k in all && all[k] == Rendered(scope[i].value).value)
      && (NoSetter(point, k) && k != "__name__" && NoSetter(resource, k) && NoSetter(scope, k) ==> k !in all)
  {
    var base := BaseLabels(Overlay(resource, map[]), Overlay(scope, map[]), name);
    Decided(point, base, k, i);
    Decided(resource, map[], k, i);
    Decided(scope, map[], k, i);
  }

  /** Text, truth values and numbers become labels; only other values are skipped. */
  lemma RenderedMeaning(v: AnyValue)
    ensures v.StringValue? ==> Rendered(v) == Some(v.text)
    ensures v == BoolValue(true) ==> Rendered(v) == Some("true")
    ensures v == BoolValue(false) ==> Rendered(v) == Some("false")
    ensures v.IntValue? || v.DoubleValue? ==> Rendered(v) == Some(v.text)
    ensures Rendered(v).None? <==> v.OtherValue?
  {
  }

  ghost predicate LastSetter(attributes: seq<KeyValue>, k: string, i: nat) {
    i < |attributes| && Sets(attributes[i], k) && forall j :: i < j < |attributes| ==> !Sets(attributes[j], k)
  }

  ghost predicate NoSetter(attributes: seq<KeyValue>, k: string) {
    forall j :: 0 <= j < |attributes| ==> !Sets(attributes[j], k)
  }

  lemma Decided(attributes: seq<KeyValue>, labels: Labels, k: string, i: nat)
    ensures var r := Overlay(attributes, labels);
      && (LastSetter(attributes, k, i) ==> k in r && r[k] == Rendered(attributes[i].value).value)
      && (NoSetter(attributes, k) ==> (k in r <==> k in labels) && (k in labels ==> r[k] == labels[k]))
  {
    if LastSetter(attributes, k, i) {
      OverlayLast(attributes, labels, k, i);
    }
    if NoSetter(attributes, k) {
      OverlayOther(attributes, labels, k);
    }
  }

  /** Nanoseconds to milliseconds. */
  function Millis(nanos: nat): nat {
    nanos / 1000000
  }

  function NumberSample(p: NumberPoint): Sample {
    Sample(Millis(p.timeUnixNano), p.asDouble)
  }

  /** Count, sum and bucket counts at successive milliseconds. */
  function HistogramSamples(p: HistogramPoint): (q: seq<Sample>)
    ensures |q| == 2 + |p.bucketCounts|
  {
    var ts := Millis(p.timeUnixNano);
    [Sample(ts, p.count as real), Sample(ts + 1, p.sum)]
    + seq(|p.bucketCounts|, i requires 0 <= i < |p.bucketCounts| => Sample(ts + 2 + i, p.bucketCounts[i] as real))
  }

  function NumberItem(base: Labels, p: NumberPoint): Item {
    Item(Overlay(p.attributes, base), [NumberSample(p)])
  }

  function HistogramItem(base: Labels, p: HistogramPoint): Item {
    Item(Overlay(p.attributes, base), HistogramSamples(p))
  }

  function NumberItems(base: Labels, points: seq<NumberPoint>): seq<Item> {
    seq(|points|, i requires 0 <= i < |points| => NumberItem(base, points[i]))
  }

  function HistogramItems(base: Labels, points: seq<HistogramPoint>): seq<Item> {
    seq(|points|, i requires 0 <= i < |points| => HistogramItem(base, points[i]))
  }
}
