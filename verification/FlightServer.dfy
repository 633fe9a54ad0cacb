/** `MetricsFlightServer::DoPut`: rows are gathered into runs of equal tags, one write per run. */
module FlightServer {
  import opened Wrappers
  import opened TimeSeries
  import opened Batching
  import opened StorageModel
  import opened Runs
  import opened FlightTypes

  /** How DoPut ends; Thrown means that add_sample's exception escaped. */
  datatype Status = Ok | Invalid | ReadFailed | Thrown

  /** The storage's history of write calls and the server's statistics. */
  datatype Books = Books(attempts: seq<Series>, ingested: nat, batches: nat, errors: nat)

  datatype Result = Result(books: Books, status: Status)

  /** The batches a client sends, and whether reading breaks off after them. */
  datatype Stream = Stream(batches: seq<RecordBatch>, broken: bool)

  // -------------------------------------------------------------------------- specification

  function AfterWrite(k: Books, s: Series, accepts: Environment): Books {
    if accepts(|k.attempts|)
    then k.(attempts := k.attempts + [s], ingested := k.ingested + |s.samples|)
    else k.(attempts := k.attempts + [s], errors := k.errors + 1)
  }

  /** Writing a list of series; a failure does not stop the rest. */
  function AfterWrites(k: Books, ws: seq<Series>, accepts: Environment): Books {
    if ws == [] then k else AfterWrite(AfterWrites(k, ws[..|ws| - 1], accepts), ws[|ws| - 1], accepts)
  }

  /** All series but the last. */
  function Front(ws: seq<Series>): seq<Series> {
    if ws == [] then [] else ws[..|ws| - 1]
  }

  /** The rows of one batch. When a row does not advance its series, the runs before that series are
      written and the series itself is lost. */
  function AfterRows(k: Books, items: seq<Item>, accepts: Environment): Result {
    var n := SteadyPrefix(items);
    if n == |items| then Result(AfterWrites(k, RunsOf(items), accepts).(batches := k.batches + 1), Ok)
    else Result(AfterWrites(k, Front(RunsOf(items[..n])), accepts), Thrown)
  }

  function AfterBatch(k: Books, b: RecordBatch, fallback: string, accepts: Environment): Result
    requires WellFormed(b)
  {
    if b.rows == 0 then Result(k, Ok)
    else if !SchemaOk(b) then Result(k.(errors := k.errors + 1), Invalid)
    else AfterRows(k, RowItems(b, fallback, b.rows), accepts)
  }

  function AfterStream(k: Books, s: Stream, fallback: string, accepts: Environment): Result
    requires forall i :: 0 <= i < |s.batches| ==> WellFormed(s.batches[i])
    decreases |s.batches|
  {
    if s.batches == [] then Result(k, if s.broken then ReadFailed else Ok)
    else
      var r := AfterBatch(k, s.batches[0], fallback, accepts);
      if r.status == Ok then AfterStream(r.books, s.(batches := s.batches[1..]), fallback, accepts) else r
  }

  // ------------------------------------------------------------------------------ the server

  class MetricsFlightServer {
    const storage: Storage
    var samplesIngested: nat
    var batchesProcessed: nat
    var errors: nat

    constructor (storage: Storage)
      ensures this.storage == storage && samplesIngested == 0 && batchesProcessed == 0 && errors == 0
    {
      this.storage := storage;
      samplesIngested, batchesProcessed, errors := 0, 0, 0;
    }

    ghost function Now(): Books
      reads this, storage
    {
      Books(storage.attempts, samplesIngested, batchesProcessed, errors)
    }

    method Flush(s: Series)
      modifies this, storage
      ensures Now() == AfterWrite(old(Now()), s, storage.accepts)
    {
      var ok := storage.Write(s);
      if ok {
        samplesIngested := samplesIngested + |s.samples|;
      } else {
        errors := errors + 1;
      }
    }

    /** One row: it extends the open series, or closes it and opens the next. */
    method PutRow(item: Item, current: Option<Series>, lastTags: Labels, ghost start: Books, ghost seen: seq<Item>)
        returns (next: Option<Series>, tags: Labels, thrown: bool)
      requires |item.samples| == 1 && Gathered(start, Now(), seen, current, lastTags, storage.accepts)
      modifies this, storage
      ensures thrown <==> current.Some? && item.labels == lastTags && !Accepts(current.value.samples, item.samples[0])
      ensures thrown ==> Now() == old(Now())
      ensures !thrown ==> Gathered(start, Now(), seen + [item], next, tags, storage.accepts)
    {
      var x := item.samples[0];
      assert item == Item(item.labels, [x]);
      if current.Some? && item.labels == lastTags {
        if !Accepts(current.value.samples, x) {
          return current, lastTags, true;
        }
        GatherMore(start, Now(), seen, current, lastTags, x, storage.accepts);
        return Some(Series(lastTags, current.value.samples + [x])), lastTags, false;
      }
      GatherNext(start, Now(), seen, current, lastTags, item.labels, x, storage.accepts);
      if current.Some? {
        Flush(current.value);
      }
      return Some(Series(item.labels, [x])), item.labels, false;
    }

    /** The row loop. */
    method GatherRows(b: RecordBatch, fallback: string) returns (current: Option<Series>, lastTags: Labels, thrown: bool)
      requires WellFormed(b) && SchemaOk(b)
      modifies this, storage
      ensures thrown ==> Result(Now(), Thrown) == AfterRows(old(Now()), RowItems(b, fallback, b.rows), storage.accepts)
      ensures !thrown ==> Gathered(old(Now()), Now(), RowItems(b, fallback, b.rows), current, lastTags, storage.accepts)
    {
      ghost var start := Now();
      current, lastTags, thrown := None, map[], false;
      GatherStarts(start, lastTags, storage.accepts);
      for i := 0 to b.rows
        invariant !thrown && Gathered(start, Now(), RowItems(b, fallback, i), current, lastTags, storage.accepts)
      {
        var row := ReadRow(b, fallback, i);
        ghost var seen := RowItems(b, fallback, i);
        RowItemsStep(b, fallback, i, row);
        if row.None? {
          continue;
        }
        ghost var open, openTags, books := current, lastTags, Now();
        current, lastTags, thrown := PutRow(row.value, current, lastTags, start, seen);
        if thrown {
          StopsAtRow(b, fallback, i, row.value, start, books, open, openTags, storage.accepts);
          return;
        }
      }
    }

    /** The row loop and the final flush. */
    method PutRows(b: RecordBatch, fallback: string) returns (status: Status)
      requires WellFormed(b) && b.rows > 0 && SchemaOk(b)
      modifies this, storage
      ensures Result(Now(), status) == AfterRows(old(Now()), RowItems(b, fallback, b.rows), storage.accepts)
    {
      ghost var start := Now();
      var current, lastTags, thrown := GatherRows(b, fallback);
      if thrown {
        return Thrown;
      }
      GatherEnds(start, Now(), RowItems(b, fallback, b.rows), current, lastTags, storage.accepts);
      if current.Some? {
        Flush(current.value);
      }
      batchesProcessed := batchesProcessed + 1;
      return Ok;
    }

    method PutBatch(b: RecordBatch, fallback: string) returns (status: Status)
      requires WellFormed(b)
      modifies this, storage
      ensures Result(Now(), status) == AfterBatch(old(Now()), b, fallback, storage.accepts)
    {
      if b.rows == 0 {
        return Ok;
      }
      if !SchemaOk(b) {
        errors := errors + 1;
        return Invalid;
      }
      status := PutRows(b, fallback);
    }

    method DoPut(s: Stream, descriptor: Descriptor) returns (status: Status)
      requires forall i :: 0 <= i < |s.batches| ==> WellFormed(s.batches[i])
      modifies this, storage
      ensures Result(Now(), status) == AfterStream(old(Now()), s, FallbackName(descriptor), storage.accepts)
    {
      ghost var start := Now();
      var fallback := FallbackName(descriptor);
      for i := 0 to |s.batches|
        invariant AfterStream(Now(), s.(batches := s.batches[i..]), fallback, storage.accepts)
               == AfterStream(start, s, fallback, storage.accepts)
      {
        assert s.batches[i..][0] == s.batches[i] && s.batches[i..][1..] == s.batches[i + 1..];
        status := PutBatch(s.batches[i], fallback);
        if status != Ok {
          return;
        }
      }
      return if s.broken then ReadFailed else Ok;
    }
  }

  function Last(ws: seq<Series>): Series
    requires ws != []
  {
    ws[|ws| - 1]
  }

  // -------------------------------------------------------------------------- the row loop

  /** The loop's state after the rows `seen`: the last run is still open, the others are written. */
  ghost predicate Gathered(start: Books, now: Books, seen: seq<Item>, current: Option<Series>, lastTags: Labels, accepts: Environment) {
    && Rows(seen) && Steady(seen)
    && now == AfterWrites(start, Front(RunsOf(seen)), accepts)
    && (current.None? <==> seen == [])
    && (current.Some? ==> RunsOf(seen) != [] && Last(RunsOf(seen)) == current.value && lastTags == current.value.labels)
  }

  /** Writing the open series, if any. */
  function Flushed(k: Books, current: Option<Series>, accepts: Environment): Books {
    if current.Some? then AfterWrite(k, current.value, accepts) else k
  }

  lemma FlushedAll(start: Books, now: Books, seen: seq<Item>, current: Option<Series>, lastTags: Labels, accepts: Environment)
    requires Gathered(start, now, seen, current, lastTags, accepts)
    ensures Flushed(now, current, accepts) == AfterWrites(start, RunsOf(seen), accepts)
  {
  }

  lemma GatherStarts(start: Books, lastTags: Labels, accepts: Environment)
    ensures Gathered(start, start, [], None, lastTags, accepts)
  {
  }

  lemma GatherMore(start: Books, now: Books, seen: seq<Item>, current: Option<Series>, lastTags: Labels, x: Sample, accepts: Environment)
    requires Gathered(start, now, seen, current, lastTags, accepts)
    requires current.Some? && Accepts(current.value.samples, x)
    ensures Gathered(start, now, seen + [Item(lastTags, [x])], Some(Series(lastTags, current.value.samples + [x])), lastTags, accepts)
  {
    LastOfRuns(seen);
    StaysSteady(seen, Item(lastTags, [x]));
    ExtendsRun(seen, Item(lastTags, [x]));
  }

  lemma GatherNext(start: Books, now: Books, seen: seq<Item>, current: Option<Series>, lastTags: Labels, tags: Labels, x: Sample, accepts: Environment)
    requires Gathered(start, now, seen, current, lastTags, accepts)
    requires current.None? || tags != lastTags
    ensures Gathered(start, Flushed(now, current, accepts), seen + [Item(tags, [x])], Some(Series(tags, [x])), tags, accepts)
  {
    if seen != [] {
      LastOfRuns(seen);
    }
    StaysSteady(seen, Item(tags, [x]));
    StartsRun(seen, Item(tags, [x]));
    FlushedAll(start, now, seen, current, lastTags, accepts);
  }

  lemma GatherStops(start: Books, now: Books, seen: seq<Item>, current: Option<Series>, lastTags: Labels, item: Item, items: seq<Item>, accepts: Environment)
    requires Gathered(start, now, seen, current, lastTags, accepts)
    requires |item.samples| == 1 && item.labels == lastTags && seen + [item] <= items
    requires current.Some? && !Accepts(current.value.samples, item.samples[0])
    ensures Result(now, Thrown) == AfterRows(start, items, accepts)
  {
    LastOfRuns(seen);
    StopsHere(seen, item, items);
  }

  lemma StopsAtRow(b: RecordBatch, fallback: string, i: nat, item: Item, start: Books, now: Books, current: Option<Series>, lastTags: Labels, accepts: Environment)
    requires WellFormed(b) && SchemaOk(b) && i < b.rows && RowItem(b, fallback, i) == Some(item)
    requires Gathered(start, now, RowItems(b, fallback, i), current, lastTags, accepts)
    requires |item.samples| == 1 && item.labels == lastTags
    requires current.Some? && !Accepts(current.value.samples, item.samples[0])
    ensures Result(now, Thrown) == AfterRows(start, RowItems(b, fallback, b.rows), accepts)
  {
    RowItemsStep(b, fallback, i, Some(item));
    RowItemsPrefix(b, fallback, i + 1, b.rows);
    GatherStops(start, now, RowItems(b, fallback, i), current, lastTags, item, RowItems(b, fallback, b.rows), accepts);
  }

  lemma GatherEnds(start: Books, now: Books, seen: seq<Item>, current: Option<Series>, lastTags: Labels, accepts: Environment)
    requires Gathered(start, now, seen, current, lastTags, accepts)
    ensures var k := Flushed(now, current, accepts);
      Result(k.(batches := k.batches + 1), Ok) == AfterRows(start, seen, accepts)
  {
    FlushedAll(start, now, seen, current, lastTags, accepts);
    SteadyPrefixMeaning(seen);
    KeepsBatches(start, RunsOf(seen), accepts);
  }

  lemma AppendRow(seen: seq<Item>, item: Item)
    ensures (seen + [item])[..|seen|] == seen && RunsOf(seen + [item]) == Extend(RunsOf(seen), item)
  {
  }

  lemma ExtendsRun(seen: seq<Item>, item: Item)
    requires RunsOf(seen) != [] && Last(RunsOf(seen)).labels == item.labels
    ensures RunsOf(seen + [item]) != [] && Front(RunsOf(seen + [item])) == Front(RunsOf(seen))
    ensures Last(RunsOf(seen + [item])) == Series(item.labels, Last(RunsOf(seen)).samples + item.samples)
  {
    AppendRow(seen, item);
  }

  lemma StartsRun(seen: seq<Item>, item: Item)
    requires RunsOf(seen) != [] ==> Last(RunsOf(seen)).labels != item.labels
    ensures RunsOf(seen + [item]) != [] && Front(RunsOf(seen + [item])) == RunsOf(seen)
    ensures Last(RunsOf(seen + [item])) == Series(item.labels, item.samples)
  {
    AppendRow(seen, item);
  }

  lemma StaysSteady(seen: seq<Item>, item: Item)
    requires Steady(seen)
    requires seen == [] || !Clash(seen + [item], |seen|)
    ensures Steady(seen + [item])
  {
    forall i | 1 <= i < |seen| + 1 ensures !Clash(seen + [item], i) {
      if i < |seen| {
        ClashPrefix(seen + [item], |seen|, i);
        assert (seen + [item])[..|seen|] == seen;
      }
    }
  }

  lemma StopsHere(seen: seq<Item>, item: Item, items: seq<Item>)
    requires seen != [] && Steady(seen) && seen + [item] <= items && Clash(seen + [item], |seen|)
    ensures SteadyPrefix(items) == |seen| && items[..|seen|] == seen
  {
    var n := |seen|;
    forall i | 1 <= i < n ensures !Clash(items, i) {
      ClashPrefix(items, n, i);
      assert items[..n] == seen;
    }
    assert items[n] == item && items[n - 1] == seen[n - 1];
    SteadyPrefixUnique(items, n);
  }

  lemma {:induction false} KeepsBatches(k: Books, ws: seq<Series>, accepts: Environment)
    ensures AfterWrites(k, ws, accepts).batches == k.batches
    decreases |ws|
  {
    if ws != [] {
      KeepsBatches(k, ws[..|ws| - 1], accepts);
    }
  }
}
