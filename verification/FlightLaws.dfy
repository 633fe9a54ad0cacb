/** What a client of `DoPut` can rely on: which rows are written, how they are counted, and what is lost
    when a batch is refused. */
module FlightLaws {
  import opened TimeSeries
  import opened Batching
  import opened StorageModel
  import opened Runs
  import opened FlightTypes
  import opened FlightServer
  import Spacing

  /** How many of the calls n, …, n + m - 1 fail. */
  function Refusals(n: nat, m: nat, accepts: Environment): nat {
    if m == 0 then 0 else Refusals(n, m - 1, accepts) + if accepts(n + m - 1) then 0 else 1
  }

  /** The samples in those of the listed series whose write fails, the first being call n. */
  function RefusedSamples(ws: seq<Series>, n: nat, accepts: Environment): nat {
    if ws == [] then 0
    else
      var m := |ws| - 1;
      RefusedSamples(ws[..m], n, accepts) + if accepts(n + m) then 0 else |ws[m].samples|
  }

  /** Every series is attempted in order; ingested samples and samples of failed writes make up all
      samples; the error counter counts the failed calls. */
  lemma {:induction false} WritesConserve(k: Books, ws: seq<Series>, accepts: Environment)
    ensures var r, n := AfterWrites(k, ws, accepts), |k.attempts|;
      && r.attempts == k.attempts + ws
      && r.ingested + RefusedSamples(ws, n, accepts) == k.ingested + SumSizes(ws)
      && r.errors == k.errors + Refusals(n, |ws|, accepts)
      && r.batches == k.batches
    decreases |ws|
  {
    if ws != [] {
      var m := |ws| - 1;
      WritesConserve(k, ws[..m], accepts);
      assert k.attempts + ws == k.attempts + ws[..m] + [ws[m]];
    }
  }

  lemma {:induction false} RowItemsAreRows(b: RecordBatch, fallback: string, n: nat)
    requires WellFormed(b) && SchemaOk(b) && n <= b.rows
    ensures Rows(RowItems(b, fallback, n))
    decreases n
  {
    if n > 0 {
      RowItemsAreRows(b, fallback, n - 1);
    }
  }

  /** The rows a batch contributes. */
  function BatchItems(b: RecordBatch, fallback: string): seq<Item>
    requires WellFormed(b)
  {
    if b.rows > 0 && SchemaOk(b) then RowItems(b, fallback, b.rows) else []
  }

  /** A batch the server takes in full. */
  ghost predicate Acceptable(b: RecordBatch, fallback: string)
    requires WellFormed(b)
  {
    b.rows == 0 || (SchemaOk(b) && Steady(RowItems(b, fallback, b.rows)))
  }

  /** The write calls made between two states of the books. */
  function Calls(k: Books, r: Books): seq<Series> {
    if |k.attempts| <= |r.attempts| then r.attempts[|k.attempts|..] else []
  }

  /** Between k and r the rows `input` were written, in order and each once, and each was counted as
      ingested or belongs to a failed write; the errors are the failed writes and `others` more. */
  ghost predicate Accounted(k: Books, r: Books, input: seq<(Labels, Sample)>, others: nat, accepts: Environment) {
    var ws, n := Calls(k, r), |k.attempts|;
    && k.attempts <= r.attempts
    && Unpack(ws) == input
    && r.ingested + RefusedSamples(ws, n, accepts) == k.ingested + |input|
    && r.errors == k.errors + Refusals(n, |ws|, accepts) + others
  }

  lemma {:induction false} InputSize(items: seq<Item>)
    requires Rows(items)
    ensures |Input(items)| == |items|
    decreases |items|
  {
    if items != [] {
      InputSize(items[..|items| - 1]);
    }
  }

  lemma AccountedBy(k: Books, r: Books, ws: seq<Series>, input: seq<(Labels, Sample)>, accepts: Environment)
    requires r.attempts == k.attempts + ws && Unpack(ws) == input
    requires r.ingested + RefusedSamples(ws, |k.attempts|, accepts) == k.ingested + |input|
    requires r.errors == k.errors + Refusals(|k.attempts|, |ws|, accepts)
    ensures Calls(k, r) == ws && Accounted(k, r, input, 0, accepts)
  {
    assert Calls(k, r) == ws;
  }

  lemma RunsAccounted(k: Books, items: seq<Item>, ws: seq<Series>, r: Books, accepts: Environment)
    requires Rows(items) && ws == RunsOf(items) && r == AfterWrites(k, ws, accepts)
    ensures Calls(k, r) == ws && Accounted(k, r, Input(items), 0, accepts)
  {
    WritesConserve(k, ws, accepts);
    RunsUnpack(items);
    RunsConserve(items);
    InputSize(items);
    AccountedBy(k, r, ws, Input(items), accepts);
  }

  /** The batch counter plays no part in the accounts. */
  lemma AccountedBatches(k: Books, r: Books, input: seq<(Labels, Sample)>, accepts: Environment, n: nat)
    requires Accounted(k, r, input, 0, accepts)
    ensures Accounted(k, r.(batches := n), input, 0, accepts) && Calls(k, r.(batches := n)) == Calls(k, r)
  {
    assert Calls(k, r.(batches := n)) == Calls(k, r);
  }

  /** How many of the rows are written: all, or those before the run in which the first clash occurs. */
  function Kept(items: seq<Item>): (n: nat)
    ensures n <= |items|
  {
    var m := SteadyPrefix(items);
    if m == |items| || m == 0 then m else RunStart(items[..m])
  }

  /** Kept without reference to how it is computed: it is the whole list exactly when the list is
      steady, and otherwise the beginning of the run, of one label set, that the first clash ends. */
  lemma KeptMeaning(items: seq<Item>) returns (m: nat)
    ensures Kept(items) == |items| <==> Steady(items)
    ensures !Steady(items) ==>
      && Kept(items) < m < |items| && Clash(items, m) && (forall i :: 1 <= i < m ==> !Clash(items, i))
      && (forall i :: Kept(items) <= i <= m ==> items[i].labels == items[m].labels)
      && (Kept(items) > 0 ==> items[Kept(items) - 1].labels != items[m].labels)
  {
    SteadyPrefixMeaning(items);
    m := SteadyPrefix(items);
    if m < |items| {
      RunStartMeaning(items[..m]);
      assert items[..m][m - 1] == items[m - 1];
    }
  }

  /** In every case the writes are the runs of the rows kept. */
  lemma KeptIsWritten(k: Books, items: seq<Item>, accepts: Environment)
    ensures var r := AfterRows(k, items, accepts);
      && (r.status == Ok <==> Steady(items)) && (r.status == Thrown <==> !Steady(items))
      && r.books == AfterWrites(k, RunsOf(items[..Kept(items)]), accepts).(batches := k.batches + if Steady(items) then 1 else 0)
  {
    SteadyPrefixMeaning(items);
    var m := SteadyPrefix(items);
    if m == |items| {
      assert items[..m] == items;
    } else {
      var seen := items[..m];
      FrontOfRuns(seen);
      assert seen[..RunStart(seen)] == items[..Kept(items)];
      KeepsBatches(k, RunsOf(items[..Kept(items)]), accepts);
    }
  }

  lemma RowsLaw(k: Books, items: seq<Item>, accepts: Environment)
    requires Rows(items)
    ensures var r, kept := AfterRows(k, items, accepts), items[..Kept(items)];
      && (r.status == Ok <==> Steady(items)) && (r.status == Thrown <==> !Steady(items))
      && Accounted(k, r.books, Input(kept), 0, accepts) && Calls(k, r.books) == RunsOf(kept)
      && r.books.batches == k.batches + if Steady(items) then 1 else 0
  {
    var kept := items[..Kept(items)];
    var books := AfterWrites(k, RunsOf(kept), accepts);
    KeptIsWritten(k, items, accepts);
    RunsAccounted(k, kept, RunsOf(kept), books, accepts);
    AccountedBatches(k, books, Input(kept), accepts, k.batches + if Steady(items) then 1 else 0);
  }

  /** The rows of a batch that are written. */
  function KeptRows(b: RecordBatch, fallback: string): seq<(Labels, Sample)>
    requires WellFormed(b)
  {
    Input(BatchItems(b, fallback)[..Kept(BatchItems(b, fallback))])
  }

  /** Errors other than failed writes. */
  function OtherErrors(status: Status): nat {
    if status == Invalid then 1 else 0
  }

  /** A batch is accepted exactly when its schema is right and no row goes back in time within a run.
      Accepted or not, the rows kept are accounted for, and an accepted batch is counted unless it is
      empty. */
  lemma BatchLaw(k: Books, b: RecordBatch, fallback: string, accepts: Environment)
    requires WellFormed(b)
    ensures var r := AfterBatch(k, b, fallback, accepts);
      && (r.status == Ok <==> Acceptable(b, fallback))
      && Accounted(k, r.books, KeptRows(b, fallback), OtherErrors(r.status), accepts)
      && (r.status == Ok ==> KeptRows(b, fallback) == Input(BatchItems(b, fallback)))
      && r.books.batches == k.batches + if r.status == Ok && b.rows > 0 then 1 else 0
  {
    if Acceptable(b, fallback) {
      AcceptableKeepsAll(b, fallback);
    }
    if b.rows > 0 && SchemaOk(b) {
      RowItemsAreRows(b, fallback, b.rows);
      RowsLaw(k, RowItems(b, fallback, b.rows), accepts);
    } else {
      AccountedNothing(k, k.errors + 1, accepts);
      AccountedNothing(k, k.errors, accepts);
    }
  }

  /** All non-null rows of an accepted batch are kept. */
  lemma AcceptableKeepsAll(b: RecordBatch, fallback: string)
    requires WellFormed(b) && Acceptable(b, fallback)
    ensures KeptRows(b, fallback) == Input(BatchItems(b, fallback))
  {
    var items := BatchItems(b, fallback);
    var m := KeptMeaning(items);
    assert Steady(items);
    assert items[..|items|] == items;
  }

  lemma RowsCalls(k: Books, items: seq<Item>, accepts: Environment)
    requires Rows(items)
    ensures Calls(k, AfterRows(k, items, accepts).books) == RunsOf(items[..Kept(items)])
  {
    RowsLaw(k, items, accepts);
  }

  /** The calls made for a batch: neighbours differ in their labels, and every label set gets the
      samples that the bridge's grouping of the rows kept would give it, in the same order. */
  lemma CallsLaw(k: Books, b: RecordBatch, fallback: string, accepts: Environment, l: Labels)
    requires WellFormed(b)
    ensures var ws, items := Calls(k, AfterBatch(k, b, fallback, accepts).books), BatchItems(b, fallback);
      && (forall i :: 0 <= i < |ws| - 1 ==> ws[i].labels != ws[i + 1].labels)
      && WrittenFor(ws, l) == GroupOf(items[..Kept(items)], l)
  {
    var items := BatchItems(b, fallback);
    var kept := items[..Kept(items)];
    RunsDiffer(kept);
    RunsAgreeWithGroups(kept, l);
    if b.rows > 0 && SchemaOk(b) {
      RowItemsAreRows(b, fallback, b.rows);
      RowsCalls(k, items, accepts);
    }
  }

  /** A batch refused half way: the first clash is at row m, the run it ends began at row `start`. All
      rows before `start` are written and accounted for; those from `start` on are not written, neither
      the run in progress nor the clashing row and the rows after it. */
  lemma ClashLaw(k: Books, b: RecordBatch, fallback: string, accepts: Environment) returns (start: nat, m: nat)
    requires WellFormed(b) && b.rows > 0 && SchemaOk(b) && !Acceptable(b, fallback)
    ensures var r, items := AfterBatch(k, b, fallback, accepts), BatchItems(b, fallback);
      && start < m < |items| && Clash(items, m) && (forall i :: 1 <= i < m ==> !Clash(items, i))
      && (forall i :: start <= i <= m ==> items[i].labels == items[m].labels)
      && (start > 0 ==> items[start - 1].labels != items[m].labels)
      && r.status == Thrown && r.books.batches == k.batches
      && Accounted(k, r.books, Input(items[..start]), 0, accepts)
  {
    var items := BatchItems(b, fallback);
    start := Kept(items);
    m := KeptMeaning(items);
    RowItemsAreRows(b, fallback, b.rows);
    RowsLaw(k, items, accepts);
  }

  // --------------------------------------------------------------------------- whole streams

  /** The rows of a stream that are written: those of the acceptable batches up to the first that is
      not, and what is kept of that one. */
  ghost function StreamKept(bs: seq<RecordBatch>, fallback: string): seq<(Labels, Sample)>
    requires forall i :: 0 <= i < |bs| ==> WellFormed(bs[i])
  {
    if bs == [] then []
    else if Acceptable(bs[0], fallback) then KeptRows(bs[0], fallback) + StreamKept(bs[1..], fallback)
    else KeptRows(bs[0], fallback)
  }

  /** All non-null rows of a stream. */
  function StreamInput(bs: seq<RecordBatch>, fallback: string): seq<(Labels, Sample)>
    requires forall i :: 0 <= i < |bs| ==> WellFormed(bs[i])
  {
    if bs == [] then [] else Input(BatchItems(bs[0], fallback)) + StreamInput(bs[1..], fallback)
  }

  /** The non-empty batches before the first that is not acceptable. */
  ghost function StreamBatches(bs: seq<RecordBatch>, fallback: string): nat
    requires forall i :: 0 <= i < |bs| ==> WellFormed(bs[i])
  {
    if bs == [] || !Acceptable(bs[0], fallback) then 0
    else (if bs[0].rows > 0 then 1 else 0) + StreamBatches(bs[1..], fallback)
  }

  ghost predicate AllAcceptable(bs: seq<RecordBatch>, fallback: string)
    requires forall i :: 0 <= i < |bs| ==> WellFormed(bs[i])
  {
    forall i :: 0 <= i < |bs| ==> Acceptable(bs[i], fallback)
  }

  lemma {:induction false} UnpackConcat(a: seq<Series>, b: seq<Series>)
    ensures Unpack(a + b) == Unpack(a) + Unpack(b)
    decreases |b|
  {
    if b == [] {
      assert a + b == a;
    } else {
      var n := |b| - 1;
      assert a + b == a + b[..n] + [b[n]] && b == b[..n] + [b[n]];
      UnpackConcat(a, b[..n]);
      UnpackAppend(a + b[..n], b[n]);
    }
  }

  lemma {:induction false} RefusedSamplesConcat(a: seq<Series>, b: seq<Series>, n: nat, accepts: Environment)
    ensures RefusedSamples(a + b, n, accepts) == RefusedSamples(a, n, accepts) + RefusedSamples(b, n + |a|, accepts)
    decreases |b|
  {
    if b == [] {
      assert a + b == a;
    } else {
      var m := |b| - 1;
      assert (a + b)[..|a + b| - 1] == a + b[..m];
      RefusedSamplesConcat(a, b[..m], n, accepts);
    }
  }

  lemma {:induction false} RefusalsConcat(n: nat, a: nat, b: nat, accepts: Environment)
    ensures Refusals(n, a + b, accepts) == Refusals(n, a, accepts) + Refusals(n + a, b, accepts)
    decreases b
  {
    if b > 0 {
      RefusalsConcat(n, a, b - 1, accepts);
    }
  }

  lemma AccountedConcat(k: Books, q: Books, r: Books, a: seq<(Labels, Sample)>, b: seq<(Labels, Sample)>, others: nat, accepts: Environment)
    requires Accounted(k, q, a, 0, accepts) && Accounted(q, r, b, others, accepts)
    ensures Accounted(k, r, a + b, others, accepts)
  {
    ListedConcat(k, q, r, a, b);
    CountedConcat(k, q, r, accepts);
  }

  lemma ListedConcat(k: Books, q: Books, r: Books, a: seq<(Labels, Sample)>, b: seq<(Labels, Sample)>)
    requires k.attempts <= q.attempts <= r.attempts && Unpack(Calls(k, q)) == a && Unpack(Calls(q, r)) == b
    ensures k.attempts <= r.attempts && Unpack(Calls(k, r)) == a + b
  {
    CallsAppend(k, q, r);
    UnpackConcat(Calls(k, q), Calls(q, r));
  }

  lemma CountedConcat(k: Books, q: Books, r: Books, accepts: Environment)
    requires k.attempts <= q.attempts <= r.attempts
    ensures RefusedSamples(Calls(k, r), |k.attempts|, accepts)
         == RefusedSamples(Calls(k, q), |k.attempts|, accepts) + RefusedSamples(Calls(q, r), |q.attempts|, accepts)
    ensures Refusals(|k.attempts|, |Calls(k, r)|, accepts)
         == Refusals(|k.attempts|, |Calls(k, q)|, accepts) + Refusals(|q.attempts|, |Calls(q, r)|, accepts)
  {
    var n := |k.attempts|;
    CallsAppend(k, q, r);
    RefusedSamplesConcat(Calls(k, q), Calls(q, r), n, accepts);
    RefusalsConcat(n, |Calls(k, q)|, |Calls(q, r)|, accepts);
  }

  lemma CallsAppend(k: Books, q: Books, r: Books)
    requires k.attempts <= q.attempts <= r.attempts
    ensures Calls(k, r) == Calls(k, q) + Calls(q, r) && |q.attempts| == |k.attempts| + |Calls(k, q)|
  {
  }

  lemma AccountedNothing(k: Books, errors: nat, accepts: Environment)
    requires errors >= k.errors
    ensures Accounted(k, k.(errors := errors), [], errors - k.errors, accepts)
  {
    assert k.attempts[|k.attempts|..] == [];
  }

  lemma AllAcceptableSplit(bs: seq<RecordBatch>, fallback: string)
    requires bs != [] && forall i :: 0 <= i < |bs| ==> WellFormed(bs[i])
    ensures AllAcceptable(bs, fallback) <==> Acceptable(bs[0], fallback) && AllAcceptable(bs[1..], fallback)
  {
    assert forall i :: 0 <= i < |bs| - 1 ==> bs[1..][i] == bs[i + 1];
  }

  /** A whole DoPut, whatever happens: it answers OK exactly when the stream ends cleanly and every
      batch is acceptable; the rows kept were written in order, none twice, and are accounted for as
      ingested or as part of a failed write; and the completed batches are counted. */
  lemma {:induction false} StreamLaw(k: Books, s: Stream, fallback: string, accepts: Environment)
    requires forall i :: 0 <= i < |s.batches| ==> WellFormed(s.batches[i])
    ensures var r := AfterStream(k, s, fallback, accepts);
      && (r.status == Ok <==> !s.broken && AllAcceptable(s.batches, fallback))
      && Accounted(k, r.books, StreamKept(s.batches, fallback), OtherErrors(r.status), accepts)
      && (AllAcceptable(s.batches, fallback) ==> StreamKept(s.batches, fallback) == StreamInput(s.batches, fallback))
      && r.books.batches == k.batches + StreamBatches(s.batches, fallback)
    decreases |s.batches|
  {
    if AllAcceptable(s.batches, fallback) {
      StreamKeepsAll(s.batches, fallback);
    }
    if s.batches == [] {
      AccountedNothing(k, k.errors, accepts);
    } else {
      var b, rest := s.batches[0], s.batches[1..];
      BatchLaw(k, b, fallback, accepts);
      AllAcceptableSplit(s.batches, fallback);
      var q := AfterBatch(k, b, fallback, accepts);
      if q.status == Ok {
        StreamLaw(q.books, s.(batches := rest), fallback, accepts);
        var r := AfterStream(k, s, fallback, accepts);
        AccountedConcat(k, q.books, r.books, KeptRows(b, fallback), StreamKept(rest, fallback), OtherErrors(r.status), accepts);
      }
    }
  }

  /** When every batch is acceptable, nothing is left out. */
  lemma {:induction false} StreamKeepsAll(bs: seq<RecordBatch>, fallback: string)
    requires (forall i :: 0 <= i < |bs| ==> WellFormed(bs[i])) && AllAcceptable(bs, fallback)
    ensures StreamKept(bs, fallback) == StreamInput(bs, fallback)
  {
    if bs != [] {
      AllAcceptableSplit(bs, fallback);
      AcceptableKeepsAll(bs[0], fallback);
      StreamKeepsAll(bs[1..], fallback);
    }
  }

  // ---------------------------------------------------------------------- order in the storage

  /** Rows with equal labels come in strictly increasing time. */
  ghost predicate Advancing(items: seq<Item>)
    requires Rows(items)
  {
    forall i, j :: 0 <= i < j < |items| && items[i].labels == items[j].labels ==>
      items[i].samples[0].timestamp < items[j].samples[0].timestamp
  }

  /** The bridge's grouping accepts a list of rows exactly when it is advancing, while run grouping
      asks this only of neighbouring rows. */
  lemma RowsInOrderIff(items: seq<Item>)
    requires Rows(items)
    ensures InOrder(items) <==> Advancing(items)
  {
    Spacing.InOrderIff(items);
    assert forall i :: 0 <= i < |items| ==> Spacing.First(items[i]) == items[i].samples[0].timestamp == Spacing.Last(items[i]);
  }

  /** What a batch sends to the storage is in order for every series, across all its write calls, if
      and only if the rows kept are advancing. */
  lemma StoredInOrderIff(k: Books, b: RecordBatch, fallback: string, accepts: Environment)
    requires WellFormed(b)
    ensures var ws, items := Calls(k, AfterBatch(k, b, fallback, accepts).books), BatchItems(b, fallback);
      Rows(items) && ((forall l :: Chronological(WrittenFor(ws, l))) <==> Advancing(items[..Kept(items)]))
  {
    var ws, items := Calls(k, AfterBatch(k, b, fallback, accepts).books), BatchItems(b, fallback);
    BatchItemsAreRows(b, fallback);
    var kept := items[..Kept(items)];
    RowsInOrderIff(kept);
    forall l ensures WrittenFor(ws, l) == GroupOf(kept, l) {
      CallsLaw(k, b, fallback, accepts, l);
    }
    SameGroups(ws, kept);
  }

  lemma BatchItemsAreRows(b: RecordBatch, fallback: string)
    requires WellFormed(b)
    ensures Rows(BatchItems(b, fallback))
  {
    if b.rows > 0 && SchemaOk(b) {
      RowItemsAreRows(b, fallback, b.rows);
    }
  }

  lemma SameGroups(ws: seq<Series>, items: seq<Item>)
    requires forall l :: WrittenFor(ws, l) == GroupOf(items, l)
    ensures (forall l :: Chronological(WrittenFor(ws, l))) <==> InOrder(items)
  {
    if InOrder(items) {
      forall l ensures Chronological(WrittenFor(ws, l)) {
        if l !in LabelSets(items) {
          GroupEmpty(items, l);
        }
        assert WrittenFor(ws, l) == GroupOf(items, l);
      }
    } else {
      var l :| l in LabelSets(items) && !Chronological(GroupOf(items, l));
      assert !Chronological(WrittenFor(ws, l));
    }
  }
}
