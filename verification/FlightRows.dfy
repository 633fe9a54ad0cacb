/** What `DoPut` takes from a record batch, in terms of its columns: which rows, which samples, which
    tags, and which batches it refuses. */
module FlightRows {
  import opened Wrappers
  import opened TimeSeries
  import opened Batching
  import opened StorageModel
  import opened Runs
  import opened FlightTypes
  import opened FlightServer
  import opened FlightLaws

  // ------------------------------------------------------------------------------- schema

  /** A batch is refused for its schema if and only if it has rows and does not begin with an int64 and
      a float64 column. */
  lemma InvalidIff(k: Books, b: RecordBatch, fallback: string, accepts: Environment)
    requires WellFormed(b)
    ensures AfterBatch(k, b, fallback, accepts).status == Invalid <==>
      b.rows > 0 && (|b.fields| < 2 || !b.fields[0].column.Int64? || !b.fields[1].column.Double?)
  {
  }

  // ----------------------------------------------------------------------- rows and samples

  /** Both the time and the value of row i are there. */
  predicate Complete(b: RecordBatch, i: nat) {
    && |b.fields| >= 2 && b.fields[0].column.Int64? && b.fields[1].column.Double?
    && i < |b.fields[0].column.times| && b.fields[0].column.times[i].Some?
    && i < |b.fields[1].column.values| && b.fields[1].column.values[i].Some?
  }

  /** The time and the value of a complete row. */
  function SampleAt(b: RecordBatch, i: nat): Sample
    requires Complete(b, i)
  {
    Sample(b.fields[0].column.times[i].value, b.fields[1].column.values[i].value)
  }

  /** A row counts if and only if neither its time nor its value is null, and then it is one sample of
      just these. */
  lemma RowItemMeaning(b: RecordBatch, fallback: string, i: nat)
    requires WellFormed(b) && |b.fields| >= 2 && b.fields[0].column.Int64? && b.fields[1].column.Double? && i < b.rows
    ensures RowItem(b, fallback, i).Some? <==> Complete(b, i)
    ensures Complete(b, i) ==> RowItem(b, fallback, i).value.samples == [SampleAt(b, i)]
  {
    assert Length(b.fields[0].column) in {None, Some(b.rows)} && Length(b.fields[1].column) in {None, Some(b.rows)};
  }

  /** The complete rows among the first n, in order. */
  function CompleteRows(b: RecordBatch, n: nat): (q: seq<nat>)
    ensures forall i :: 0 <= i < |q| ==> Complete(b, q[i]) && q[i] < n
  {
    if n == 0 then [] else CompleteRows(b, n - 1) + if Complete(b, n - 1) then [n - 1] else []
  }

  lemma {:induction false} CompleteRowsMeaning(b: RecordBatch, n: nat)
    ensures forall i :: 0 <= i < n ==> (i in CompleteRows(b, n) <==> Complete(b, i))
    ensures forall i, j :: 0 <= i < j < |CompleteRows(b, n)| ==> CompleteRows(b, n)[i] < CompleteRows(b, n)[j]
  {
    if n > 0 {
      CompleteRowsMeaning(b, n - 1);
    }
  }

  lemma {:induction false} RowItemsMeaning(b: RecordBatch, fallback: string, n: nat)
    requires WellFormed(b) && SchemaOk(b) && n <= b.rows
    ensures var items, rows := RowItems(b, fallback, n), CompleteRows(b, n);
      && |items| == |rows|
      && forall j :: 0 <= j < |rows| ==> rows[j] < b.rows && RowItem(b, fallback, rows[j]) == Some(items[j])
    decreases n
  {
    if n > 0 {
      RowItemsMeaning(b, fallback, n - 1);
      RowItemMeaning(b, fallback, n - 1);
    }
  }

  lemma {:induction false} InputAt(items: seq<Item>)
    requires Rows(items)
    ensures |Input(items)| == |items|
    ensures forall j :: 0 <= j < |items| ==> Input(items)[j] == (items[j].labels, items[j].samples[0])
    decreases |items|
  {
    if items != [] {
      InputAt(items[..|items| - 1]);
    }
  }

  /** The tags of a complete row. */
  function TagsOf(b: RecordBatch, fallback: string, row: nat): Labels
    requires WellFormed(b) && row < b.rows
  {
    SourceFits(b);
    TagsAt(SourceOf(b), b.rows, fallback, row)
  }

  /** The j-th row written for a batch is the time and value of its j-th complete row, under that row's
      tags. */
  lemma KeptRowsMeaning(b: RecordBatch, fallback: string, j: nat)
    requires WellFormed(b) && j < |KeptRows(b, fallback)|
    ensures j < |CompleteRows(b, b.rows)|
    ensures var row := CompleteRows(b, b.rows)[j];
      row < b.rows && KeptRows(b, fallback)[j] == (TagsOf(b, fallback, row), SampleAt(b, row))
  {
    var items := BatchItems(b, fallback);
    var kept := items[..Kept(items)];
    BatchItemsAreRows(b, fallback);
    InputAt(kept);
    RowItemsMeaning(b, fallback, b.rows);
    RowItemMeaning(b, fallback, CompleteRows(b, b.rows)[j]);
  }

  /** An accepted batch keeps all its complete rows. */
  lemma AllRowsKept(b: RecordBatch, fallback: string)
    requires WellFormed(b) && b.rows > 0 && Acceptable(b, fallback)
    ensures |KeptRows(b, fallback)| == |CompleteRows(b, b.rows)|
  {
    AcceptableKeepsAll(b, fallback);
    BatchItemsAreRows(b, fallback);
    InputAt(BatchItems(b, fallback));
    RowItemsMeaning(b, fallback, b.rows);
  }

  // --------------------------------------------------------------------------------- tags

  /** Column i is a string column after the first two, called k and not null in this row. */
  predicate Offers(b: RecordBatch, row: nat, k: string, i: nat) {
    && 2 <= i < |b.fields| && b.fields[i].column.Text? && b.fields[i].name == k
    && row < |b.fields[i].column.texts| && b.fields[i].column.texts[row].Some?
  }

  /** Among the first n columns, column i is the last that offers k. */
  ghost predicate LastOffer(b: RecordBatch, n: nat, row: nat, k: string, i: nat) {
    i < n && Offers(b, row, k, i) && forall j: nat :: i < j < n ==> !Offers(b, row, k, j)
  }

  /** The string columns give k the value v. */
  ghost predicate ColumnsSet(b: RecordBatch, n: nat, row: nat, k: string, v: string) {
    exists i: nat :: LastOffer(b, n, row, k, i) && b.fields[i].column.texts[row] == Some(v)
  }

  /** Field a is the only one called `tags`. */
  ghost predicate TagsField(b: RecordBatch, a: nat) {
    a < |b.fields| && forall j :: 0 <= j < |b.fields| ==> (b.fields[j].name == "tags" <==> j == a)
  }

  /** The cell of the `tags` column a gives k the value v. */
  ghost predicate CellSets(b: RecordBatch, a: nat, row: nat, k: string, v: string)
    requires a < |b.fields|
  {
    var c := b.fields[a].column;
    && c.MapOf? && c.textual && row < |c.cells| && c.cells[row].Some?
    && exists j: nat :: Decides(c.cells[row].value, k, j) && c.cells[row].value[j].item.value == v
  }

  /** The row itself gives k the value v: by its cell in the single column called `tags` if there is
      one, otherwise by the string columns after the first two. */
  ghost predicate RowSets(b: RecordBatch, row: nat, k: string, v: string) {
    if exists a: nat :: TagsField(b, a) then exists a: nat :: TagsField(b, a) && CellSets(b, a, row, k, v)
    else ColumnsSet(b, |b.fields|, row, k, v)
  }

  lemma {:induction false} ColumnsCollected(b: RecordBatch, n: nat, row: nat, k: string, v: string)
    requires WellFormed(b) && n <= |b.fields| && row < b.rows && Fits(FromColumns(TextFields(b.fields, n)), b.rows)
    ensures var tags := Collect(EntriesAt(FromColumns(TextFields(b.fields, n)), b.rows, row));
      k in tags && tags[k] == v <==> ColumnsSet(b, n, row, k, v)
    decreases n
  {
    if n > 2 {
      TextFieldsShape(b, n - 1);
      var before := TextFields(b.fields, n - 1);
      ColumnsCollected(b, n - 1, row, k, v);
      assert Length(b.fields[n - 1].column) in {None, Some(b.rows)};
      if b.fields[n - 1].column.Text? {
        CollectOneMore(before, b.fields[n - 1], b.rows, row);
      } else {
        assert TextFields(b.fields, n) == before;
      }
      LastOfferNext(b, n - 1, row, k, v);
    }
  }

  lemma CollectOneMore(before: seq<Field>, f: Field, rows: nat, row: nat)
    requires f.column.Text? && row < rows && Fits(FromColumns(before), rows) && Fits(FromColumns(before + [f]), rows)
    ensures var old', new' := Collect(EntriesAt(FromColumns(before), rows, row)), Collect(EntriesAt(FromColumns(before + [f]), rows, row));
      && row < |f.column.texts|
      && new' == if f.column.texts[row].Some? then old'[f.name := f.column.texts[row].value] else old'
  {
    var es, all := EntriesAt(FromColumns(before), rows, row), EntriesAt(FromColumns(before + [f]), rows, row);
    assert (before + [f])[|before|] == f;
    assert all[..|before|] == es;
  }

  lemma LastOfferNext(b: RecordBatch, n: nat, row: nat, k: string, v: string)
    requires 2 <= n < |b.fields|
    ensures ColumnsSet(b, n + 1, row, k, v) <==>
      if Offers(b, row, k, n) then b.fields[n].column.texts[row] == Some(v) else ColumnsSet(b, n, row, k, v)
  {
    if Offers(b, row, k, n) {
      assert LastOffer(b, n + 1, row, k, n);
    } else {
      forall i: nat ensures LastOffer(b, n + 1, row, k, i) <==> LastOffer(b, n, row, k, i) {
      }
    }
  }

  lemma SourceCollected(b: RecordBatch, row: nat, k: string, v: string)
    requires WellFormed(b) && row < b.rows && Fits(SourceOf(b), b.rows)
    ensures var tags := Collect(EntriesAt(SourceOf(b), b.rows, row)); k in tags && tags[k] == v <==> RowSets(b, row, k, v)
  {
    var at := FieldIndex(b.fields, TAGS);
    if at.None? {
      forall a: nat ensures !TagsField(b, a) {
        assert a < |b.fields| ==> !Unique(b.fields, TAGS, a);
      }
      ColumnsCollected(b, |b.fields|, row, k, v);
    } else {
      TagsFieldIs(b, at.value);
      assert TagsField(b, at.value);
      assert RowSets(b, row, k, v) <==> CellSets(b, at.value, row, k, v);
      CellCollected(b, at.value, row, k, v);
    }
  }

  lemma CellCollected(b: RecordBatch, a: nat, row: nat, k: string, v: string)
    requires FieldIndex(b.fields, TAGS) == Some(a) && row < b.rows && Fits(SourceOf(b), b.rows)
    ensures var tags := Collect(EntriesAt(SourceOf(b), b.rows, row)); k in tags && tags[k] == v <==> CellSets(b, a, row, k, v)
  {
    var c := b.fields[a].column;
    if c.MapOf? && c.textual {
      if c.cells[row].Some? {
        CollectMeaning(c.cells[row].value, k, v);
      } else {
        assert EntriesAt(SourceOf(b), b.rows, row) == [];
      }
    } else {
      assert EntriesAt(SourceOf(b), b.rows, row) == [];
    }
  }

  lemma TagsFieldIs(b: RecordBatch, a: nat)
    requires FieldIndex(b.fields, TAGS) == Some(a)
    ensures forall i: nat :: TagsField(b, i) <==> i == a
  {
    assert Unique(b.fields, TAGS, a);
    assert b.fields[a].name == "tags";
  }

  /** A row's tags: what the row itself sets, and the descriptor's name as `__name__` if the row sets no
      name; nothing else. */
  lemma RowTags(b: RecordBatch, fallback: string, row: nat, k: string, v: string)
    requires WellFormed(b) && row < b.rows
    ensures k in TagsOf(b, fallback, row) && TagsOf(b, fallback, row)[k] == v <==>
      RowSets(b, row, k, v) || (k == "__name__" && v == fallback && forall w :: !RowSets(b, row, "__name__", w))
  {
    SourceFits(b);
    var tags := Collect(EntriesAt(SourceOf(b), b.rows, row));
    SourceCollected(b, row, k, v);
    forall w ensures RowSets(b, row, "__name__", w) <==> "__name__" in tags && tags["__name__"] == w {
      SourceCollected(b, row, "__name__", w);
    }
    assert "__name__" in tags <==> exists w :: RowSets(b, row, "__name__", w) by {
      if "__name__" in tags {
        assert RowSets(b, row, "__name__", tags["__name__"]);
      }
    }
  }

  /** The name for rows that set none is the first element of the client's path, or "unknown". */
  lemma FallbackMeaning(d: Descriptor)
    ensures d.Path? && |d.path| > 0 ==> FallbackName(d) == d.path[0]
    ensures d.Command? || d.path == [] ==> FallbackName(d) == "unknown"
  {
  }

  // ------------------------------------------------------------------------------- answers

  /** The answer of a stream is decided by its first batch that is not acceptable, if any: Invalid if
      its schema is wrong, otherwise the exception; with none, OK or the reader's error. */
  lemma {:induction false} StreamAnswer(k: Books, s: Stream, fallback: string, accepts: Environment, p: nat)
    requires forall i :: 0 <= i < |s.batches| ==> WellFormed(s.batches[i])
    requires p <= |s.batches| && forall i :: 0 <= i < p ==> Acceptable(s.batches[i], fallback)
    requires p < |s.batches| ==> !Acceptable(s.batches[p], fallback)
    ensures AfterStream(k, s, fallback, accepts).status
         == if p == |s.batches| then (if s.broken then ReadFailed else Ok)
            else if SchemaOk(s.batches[p]) then Thrown else Invalid
    decreases p
  {
    if s.batches != [] {
      BatchLaw(k, s.batches[0], fallback, accepts);
      if p > 0 {
        var rest := s.batches[1..];
        assert forall i :: 0 <= i < |rest| ==> rest[i] == s.batches[i + 1];
        StreamAnswer(AfterBatch(k, s.batches[0], fallback, accepts).books, s.(batches := rest), fallback, accepts, p - 1);
      } else if SchemaOk(s.batches[0]) {
        var items := RowItems(s.batches[0], fallback, s.batches[0].rows);
        KeptIsWritten(k, items, accepts);
      }
    }
  }
}
