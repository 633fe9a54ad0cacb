/** Arrow record batches as far as `MetricsFlightServer` reads them, and the tags of a row. */
module FlightTypes {
  import opened Wrappers
  import opened TimeSeries
  import opened Batching

  const TAGS := "tags"

  /** A key and a value of a map cell; either may be null. */
  datatype Entry = Entry(key: Option<string>, item: Option<string>)

  /** A nullable column. `textual` tells whether both the keys and the items of a map are strings. */
  datatype Column =
    | Int64(times: seq<Option<int>>)
    | Double(values: seq<Option<real>>)
    | Text(texts: seq<Option<string>>)
    | MapOf(cells: seq<Option<seq<Entry>>>, textual: bool)
    | Other

  datatype Field = Field(name: string, column: Column)

  datatype RecordBatch = RecordBatch(rows: nat, fields: seq<Field>)

  /** How a client names its stream. */
  datatype Descriptor = Path(path: seq<string>) | Command

  /** The name for rows that set none. */
  function FallbackName(d: Descriptor): string {
    if d.Path? && d.path != [] then d.path[0] else "unknown"
  }

  function Length(c: Column): Option<nat> {
    match c
    case Int64(times) => Some(|times|)
    case Double(values) => Some(|values|)
    case Text(texts) => Some(|texts|)
    case MapOf(cells, _) => Some(|cells|)
    case Other => None
  }

  /** Arrow guarantees that all columns of a batch are as long as the batch. */
  ghost predicate WellFormed(b: RecordBatch) {
    forall i :: 0 <= i < |b.fields| ==> Length(b.fields[i].column) in {None, Some(b.rows)}
  }

  /** At least two columns, the first int64 and the second float64. */
  predicate SchemaOk(b: RecordBatch) {
    |b.fields| >= 2 && b.fields[0].column.Int64? && b.fields[1].column.Double?
  }

  /** Where the single field of that name is; like Arrow, None when there are several. */
  function FieldIndex(fields: seq<Field>, name: string): (r: Option<nat>)
    ensures r.Some? ==> r.value < |fields|
  {
    if exists i :: 0 <= i < |fields| && Unique(fields, name, i)
    then
      assert forall i, j :: 0 <= i < |fields| && 0 <= j < |fields| && Unique(fields, name, i) && Unique(fields, name, j) ==>
        fields[i].name == name && i == j;
      var i :| 0 <= i < |fields| && Unique(fields, name, i);
      Some(i)
    else None
  }

  predicate Unique(fields: seq<Field>, name: string, i: nat)
    requires i < |fields|
  {
    forall j :: 0 <= j < |fields| ==> (fields[j].name == name <==> j == i)
  }

  // ------------------------------------------------------------------------------- tags

  /** Entries assigned one after another; a null key or item is skipped. */
  function Collect(entries: seq<Entry>): Labels {
    if entries == [] then map[]
    else
      var n := |entries| - 1;
      if entries[n].key.Some? && entries[n].item.Some?
      then Collect(entries[..n])[entries[n].key.value := entries[n].item.value]
      else Collect(entries[..n])
  }

  predicate Sets(e: Entry, k: string) {
    e.key == Some(k) && e.item.Some?
  }

  /** Entry i is the last complete one with that key. */
  predicate Decides(entries: seq<Entry>, k: string, i: nat) {
    i < |entries| && Sets(entries[i], k) && forall j :: i < j < |entries| ==> !Sets(entries[j], k)
  }

  /** The last complete entry with a key decides that tag, and only such entries make tags. */
  lemma {:induction false} CollectMeaning(entries: seq<Entry>, k: string, v: string)
    ensures k in Collect(entries) && Collect(entries)[k] == v <==>
      exists i: nat :: Decides(entries, k, i) && entries[i].item.value == v
    decreases |entries|
  {
    if entries != [] {
      var n := |entries| - 1;
      var front := entries[..n];
      CollectMeaning(front, k, v);
      if Sets(entries[n], k) {
        assert Decides(entries, k, n);
        assert forall i: nat :: Decides(entries, k, i) ==> i == n;
      } else {
        assert forall j :: 0 <= j < n ==> front[j] == entries[j];
        forall i: nat ensures Decides(front, k, i) <==> Decides(entries, k, i) {
          assert i < n && Decides(entries, k, i) ==> Decides(front, k, i);
        }
      }
    }
  }

  /** The string columns after the first two, in schema order. */
  function TextFields(fields: seq<Field>, n: nat): seq<Field>
    requires n <= |fields|
  {
    if n <= 2 then []
    else TextFields(fields, n - 1) + if fields[n - 1].column.Text? then [fields[n - 1]] else []
  }

  lemma {:induction false} TextFieldsShape(b: RecordBatch, n: nat)
    requires WellFormed(b) && n <= |b.fields|
    ensures forall i :: 0 <= i < |TextFields(b.fields, n)| ==>
      TextFields(b.fields, n)[i].column.Text? && |TextFields(b.fields, n)[i].column.texts| == b.rows
    decreases n
  {
    if n > 2 {
      TextFieldsShape(b, n - 1);
      assert Length(b.fields[n - 1].column) in {None, Some(b.rows)};
    }
  }

  /** The columns tags come from: the field called `tags` alone if there is one, all string columns
      otherwise. */
  datatype TagSource = FromMap(cells: seq<Option<seq<Entry>>>) | FromColumns(columns: seq<Field>)

  function SourceOf(b: RecordBatch): TagSource {
    var at := FieldIndex(b.fields, TAGS);
    if at.None? then FromColumns(TextFields(b.fields, |b.fields|))
    else
      var c := b.fields[at.value].column;
      if c.MapOf? && c.textual then FromMap(c.cells) else FromColumns([])
  }

  ghost predicate Fits(s: TagSource, rows: nat) {
    match s
    case FromMap(cells) => |cells| == rows
    case FromColumns(columns) => forall i :: 0 <= i < |columns| ==> columns[i].column.Text? && |columns[i].column.texts| == rows
  }

  lemma SourceFits(b: RecordBatch)
    requires WellFormed(b)
    ensures Fits(SourceOf(b), b.rows)
  {
    TextFieldsShape(b, |b.fields|);
    var at := FieldIndex(b.fields, TAGS);
    if at.Some? {
      assert Length(b.fields[at.value].column) in {None, Some(b.rows)};
    }
  }

  /** The entries of one row; a null map cell has none. */
  function EntriesAt(s: TagSource, rows: nat, row: nat): seq<Entry>
    requires Fits(s, rows) && row < rows
  {
    match s
    case FromMap(cells) => if cells[row].Some? then cells[row].value else []
    case FromColumns(columns) =>
      seq(|columns|, i requires 0 <= i < |columns| => Entry(Some(columns[i].name), columns[i].column.texts[row]))
  }

  function Named(tags: Labels, fallback: string): Labels {
    if NAME in tags then tags else tags[NAME := fallback]
  }

  function TagsAt(s: TagSource, rows: nat, fallback: string, row: nat): Labels
    requires Fits(s, rows) && row < rows
  {
    Named(Collect(EntriesAt(s, rows, row)), fallback)
  }

  /** Every row has a name: its own if it sets one, the descriptor's otherwise; all other tags are the
      row's last entries. */
  lemma TagsMeaning(s: TagSource, rows: nat, fallback: string, row: nat, k: string, v: string)
    requires Fits(s, rows) && row < rows
    ensures NAME in TagsAt(s, rows, fallback, row)
    ensures k in TagsAt(s, rows, fallback, row) && TagsAt(s, rows, fallback, row)[k] == v <==>
      var es := EntriesAt(s, rows, row);
      || (exists i: nat :: Decides(es, k, i) && es[i].item.value == v)
      || (k == NAME && v == fallback && forall j :: 0 <= j < |es| ==> !Sets(es[j], NAME))
  {
    var es := EntriesAt(s, rows, row);
    CollectMeaning(es, k, v);
    CollectDomain(es, NAME);
  }

  lemma {:induction false} CollectDomain(entries: seq<Entry>, k: string)
    ensures k in Collect(entries) <==> exists j :: 0 <= j < |entries| && Sets(entries[j], k)
    decreases |entries|
  {
    if entries != [] {
      var n := |entries| - 1;
      CollectDomain(entries[..n], k);
      assert forall j :: 0 <= j < n ==> entries[..n][j] == entries[j];
      assert entries[n] == entries[|entries| - 1];
    }
  }

  /** The helper get_tags of DoPut. */
  method GetTags(s: TagSource, ghost rows: nat, fallback: string, row: nat) returns (tags: Labels)
    requires Fits(s, rows) && row < rows
    ensures tags == TagsAt(s, rows, fallback, row)
  {
    tags := map[];
    ghost var es := EntriesAt(s, rows, row);
    match s {
      case FromMap(cells) =>
        var cell := cells[row];
        if cell.Some? {
          for j := 0 to |cell.value|
            invariant tags == Collect(es[..j])
          {
            assert es[..j + 1][..j] == es[..j];
            if cell.value[j].key.Some? && cell.value[j].item.Some? {
              tags := tags[cell.value[j].key.value := cell.value[j].item.value];
            }
          }
        }
      case FromColumns(columns) =>
        for j := 0 to |columns|
          invariant tags == Collect(es[..j])
        {
          assert es[..j + 1][..j] == es[..j];
          var text := columns[j].column.texts[row];
          if text.Some? {
            tags := tags[columns[j].name := text.value];
          }
        }
    }
    assert es[..|es|] == es;
    if NAME !in tags {
      tags := tags[NAME := fallback];
    }
  }

  // ------------------------------------------------------------------------- the input rows

  /** Row i as a one-sample item, if neither its time nor its value is null. */
  function RowItem(b: RecordBatch, fallback: string, i: nat): (r: Option<Item>)
    requires WellFormed(b) && SchemaOk(b) && i < b.rows
    ensures r.Some? ==> |r.value.samples| == 1
  {
    SourceFits(b);
    assert Length(b.fields[0].column) in {None, Some(b.rows)} && Length(b.fields[1].column) in {None, Some(b.rows)};
    var t, v := b.fields[0].column.times[i], b.fields[1].column.values[i];
    if t.None? || v.None? then None
    else Some(Item(TagsAt(SourceOf(b), b.rows, fallback, i), [Sample(t.value, v.value)]))
  }

  method ReadRow(b: RecordBatch, fallback: string, i: nat) returns (r: Option<Item>)
    requires WellFormed(b) && SchemaOk(b) && i < b.rows
    ensures r == RowItem(b, fallback, i)
  {
    SourceFits(b);
    assert Length(b.fields[0].column) in {None, Some(b.rows)} && Length(b.fields[1].column) in {None, Some(b.rows)};
    var t, v := b.fields[0].column.times[i], b.fields[1].column.values[i];
    if t.None? || v.None? {
      return None;
    }
    var tags := GetTags(SourceOf(b), b.rows, fallback, i);
    return Some(Item(tags, [Sample(t.value, v.value)]));
  }

  /** The non-null rows among the first n. */
  function RowItems(b: RecordBatch, fallback: string, n: nat): seq<Item>
    requires WellFormed(b) && SchemaOk(b) && n <= b.rows
  {
    if n == 0 then []
    else
      var x := RowItem(b, fallback, n - 1);
      RowItems(b, fallback, n - 1) + if x.Some? then [x.value] else []
  }

  lemma RowItemsStep(b: RecordBatch, fallback: string, i: nat, row: Option<Item>)
    requires WellFormed(b) && SchemaOk(b) && i < b.rows && row == RowItem(b, fallback, i)
    ensures RowItems(b, fallback, i + 1) == if row.Some? then RowItems(b, fallback, i) + [row.value] else RowItems(b, fallback, i)
    ensures row.Some? ==> |row.value.samples| == 1
  {
  }

  lemma {:induction false} RowItemsPrefix(b: RecordBatch, fallback: string, m: nat, n: nat)
    requires WellFormed(b) && SchemaOk(b) && m <= n <= b.rows
    ensures RowItems(b, fallback, m) <= RowItems(b, fallback, n)
    decreases n
  {
    if m < n {
      RowItemsPrefix(b, fallback, m, n - 1);
    }
  }
}
