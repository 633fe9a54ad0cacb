/** The batch map of `OTELMetricsBridgeImpl`'s converters, and the loop that writes it. */
module OtelBridge {
  import opened Ordering
  import opened TimeSeries
  import opened Batching
  import opened StorageModel

  /** How converting one metric ends: an exception escapes, a write failed, or all went well. */
  datatype Outcome = Done | WriteFailed | Thrown

  type Batch = map<Labels, seq<Sample>>

  // ---------------------------------------------------------------- specification

  ghost function OutcomeOf(items: seq<Item>, n: nat, accepts: Environment): Outcome {
    if !InOrder(items) then Thrown
    else if AllAccepted(Grouped(items), n, accepts) then Done
    else WriteFailed
  }

  /** The write calls that converting these items makes, starting with call n: none when some group
      would go back in time, otherwise one per group up to the first failure. */
  ghost function WritesOf(items: seq<Item>, n: nat, accepts: Environment): seq<Series> {
    if !InOrder(items) then [] else Attempted(Grouped(items), n, accepts)
  }

  // ------------------------------------------------------------------- the batch map

  /** `batch` holds the groups of `items`, plus the pre-created base series. */
  ghost predicate Holds(batch: Batch, base: Labels, items: seq<Item>) {
    && batch.Keys == LabelSets(items) + {base}
    && forall l :: l in batch ==> batch[l] == GroupOf(items, l) && Chronological(batch[l])
  }

  lemma EmptyHolds(base: Labels)
    ensures Holds(map[base := []], base, [])
  {
  }

  function Current(batch: Batch, l: Labels): seq<Sample> {
    if l in batch then batch[l] else []
  }

  lemma CurrentIsGroup(batch: Batch, base: Labels, items: seq<Item>, l: Labels)
    requires Holds(batch, base, items)
    ensures Current(batch, l) == GroupOf(items, l) && Chronological(Current(batch, l))
  {
    if l !in batch {
      GroupEmpty(items, l);
    }
  }

  lemma GroupAppend(items: seq<Item>, x: Item, l: Labels)
    ensures GroupOf(items + [x], l) == GroupOf(items, l) + if x.labels == l then x.samples else []
  {
    assert (items + [x])[..|items|] == items;
  }

  /** Adding a point's samples to its series keeps the batch the grouping of the points so far. */
  lemma AddKeeps(batch: Batch, base: Labels, items: seq<Item>, x: Item)
    requires Holds(batch, base, items)
    requires AddAll(Current(batch, x.labels), x.samples).Some?
    ensures Holds(batch[x.labels := AddAll(Current(batch, x.labels), x.samples).value], base, items + [x])
  {
    CurrentIsGroup(batch, base, items, x.labels);
    AddAllMeaning(Current(batch, x.labels), x.samples);
    LabelSetsAppend(items, x);
    var b := batch[x.labels := AddAll(Current(batch, x.labels), x.samples).value];
    forall l | l in b ensures b[l] == GroupOf(items + [x], l) && Chronological(b[l]) {
      GroupAppend(items, x, l);
    }
    assert b.Keys == batch.Keys + {x.labels};
  }

  /** If a sample is refused, the whole list of points has a group that goes back in time. */
  lemma RefusedNotInOrder(batch: Batch, base: Labels, items: seq<Item>, x: Item, rest: seq<Item>)
    requires Holds(batch, base, items) && AddAll(Current(batch, x.labels), x.samples).None?
    ensures !InOrder(items + [x] + rest)
  {
    CurrentIsGroup(batch, base, items, x.labels);
    AddAllMeaning(Current(batch, x.labels), x.samples);
    GroupAppend(items, x, x.labels);
    var all := items + [x] + rest;
    GroupConcat(items + [x], rest, x.labels);
    assert all[|items|].labels in LabelSets(all);
    if Chronological(GroupOf(all, x.labels)) {
      ChronologicalPrefix(GroupOf(items + [x], x.labels), GroupOf(rest, x.labels));
      assert false;
    }
  }

  lemma HoldsInOrder(batch: Batch, base: Labels, items: seq<Item>)
    requires Holds(batch, base, items)
    ensures InOrder(items)
  {
    forall l | l in LabelSets(items) ensures Chronological(GroupOf(items, l)) {
      assert l in batch;
    }
  }

  // ------------------------------------------------------------------- writing the batch

  /** The series with samples, in the order of the listed keys. */
  function NonEmpty(batch: Batch, keys: seq<Labels>): seq<Series>
    requires forall i :: 0 <= i < |keys| ==> keys[i] in batch
  {
    if keys == [] then []
    else
      var n := |keys| - 1;
      NonEmpty(batch, keys[..n]) + if batch[keys[n]] == [] then [] else [Series(keys[n], batch[keys[n]])]
  }

  /** The keys among the listed ones whose series has samples. */
  function Filled(batch: Batch, keys: seq<Labels>): seq<Labels>
    requires forall i :: 0 <= i < |keys| ==> keys[i] in batch
  {
    if keys == [] then []
    else
      var n := |keys| - 1;
      Filled(batch, keys[..n]) + if batch[keys[n]] == [] then [] else [keys[n]]
  }

  lemma {:induction false} FilledMembers(batch: Batch, keys: seq<Labels>, l: Labels)
    requires forall i :: 0 <= i < |keys| ==> keys[i] in batch
    ensures l in Filled(batch, keys) <==> l in keys && l in batch && batch[l] != []
    decreases |keys|
  {
    if keys != [] {
      var n := |keys| - 1;
      FilledMembers(batch, keys[..n], l);
      assert keys == keys[..n] + [keys[n]];
    }
  }

  lemma {:induction false} FilledIncreasing(batch: Batch, keys: seq<Labels>, lt: (Labels, Labels) -> bool)
    requires (forall i :: 0 <= i < |keys| ==> keys[i] in batch) && Increasing(lt, keys)
    ensures Increasing(lt, Filled(batch, keys))
    decreases |keys|
  {
    if keys != [] {
      var n := |keys| - 1;
      FilledIncreasing(batch, keys[..n], lt);
      var f := Filled(batch, keys[..n]);
      forall i | 0 <= i < |f| ensures lt(f[i], keys[n]) {
        FilledMembers(batch, keys[..n], f[i]);
        assert f[i] in keys[..n];
        var j :| 0 <= j < n && keys[..n][j] == f[i];
        assert lt(keys[j], keys[n]);
      }
    }
  }

  lemma {:induction false} NonEmptyIsSeriesFor(batch: Batch, items: seq<Item>, keys: seq<Labels>)
    requires forall i :: 0 <= i < |keys| ==> keys[i] in batch && batch[keys[i]] == GroupOf(items, keys[i])
    ensures NonEmpty(batch, keys) == SeriesFor(items, Filled(batch, keys))
    decreases |keys|
  {
    if keys != [] {
      var n := |keys| - 1;
      NonEmptyIsSeriesFor(batch, items, keys[..n]);
      var f := Filled(batch, keys[..n]);
      if batch[keys[n]] != [] {
        SeriesForAppend(items, f, keys[n]);
      }
    }
  }

  lemma SeriesForAppend(items: seq<Item>, keys: seq<Labels>, k: Labels)
    ensures SeriesFor(items, keys + [k]) == SeriesFor(items, keys) + [Series(k, GroupOf(items, k))]
  {
  }

  ghost predicate Contributing(items: seq<Item>) {
    forall i :: 0 <= i < |items| ==> items[i].samples != []
  }

  lemma {:induction false} GroupNonEmpty(items: seq<Item>, l: Labels)
    requires Contributing(items) && l in LabelSets(items)
    ensures GroupOf(items, l) != []
    decreases |items|
  {
    var n := |items| - 1;
    if items[n].labels != l {
      var i :| 0 <= i < |items| && items[i].labels == l;
      assert items[..n][i].labels == l;
      GroupNonEmpty(items[..n], l);
    }
  }

  /** Skipping empty series, the batch map yields exactly the groups, each once, in label order: the
      pre-created base series cannot be observed. */
  lemma BatchIsGrouped(batch: Batch, base: Labels, items: seq<Item>, keys: seq<Labels>)
    requires Holds(batch, base, items) && Contributing(items) && keys == LabelOrder(batch.Keys)
    ensures forall i :: 0 <= i < |keys| ==> keys[i] in batch
    ensures NonEmpty(batch, keys) == Grouped(items)
  {
    forall i | 0 <= i < |keys| ensures keys[i] in batch {
      assert keys[i] in keys;
    }
    var filled, wanted := Filled(batch, keys), LabelOrder(LabelSets(items));
    FilledIncreasing(batch, keys, LabelsLess);
    forall l ensures l in filled <==> l in wanted {
      FilledMembers(batch, keys, l);
      if l in LabelSets(items) {
        GroupNonEmpty(items, l);
      } else {
        GroupEmpty(items, l);
      }
    }
    LabelsOrder();
    SortedUnique(LabelsLess, filled, wanted);
    NonEmptyIsSeriesFor(batch, items, keys);
  }

  /** The write loop over the batch map. */
  method WriteBatch(storage: Storage, batch: Batch) returns (ok: bool)
    modifies storage
    ensures var keys := LabelOrder(batch.Keys);
      && (forall i :: 0 <= i < |keys| ==> keys[i] in batch)
      && var ws := NonEmpty(batch, keys);
         && ok == AllAccepted(ws, |old(storage.attempts)|, storage.accepts)
         && storage.attempts == old(storage.attempts) + Attempted(ws, |old(storage.attempts)|, storage.accepts)
  {
    var keys := LabelOrder(batch.Keys);
    ghost var n := |storage.attempts|;
    assert forall i :: 0 <= i < |keys| ==> keys[i] in batch by {
      assert forall i :: 0 <= i < |keys| ==> keys[i] in keys;
    }
    ok := WriteListed(storage, batch, keys);
  }

  method WriteListed(storage: Storage, batch: Batch, keys: seq<Labels>) returns (ok: bool)
    requires forall i :: 0 <= i < |keys| ==> keys[i] in batch
    modifies storage
    ensures var ws := NonEmpty(batch, keys);
      && ok == AllAccepted(ws, |old(storage.attempts)|, storage.accepts)
      && storage.attempts == old(storage.attempts) + Attempted(ws, |old(storage.attempts)|, storage.accepts)
  {
    ghost var n := |storage.attempts|;
    ghost var ws, done: seq<Series> := NonEmpty(batch, keys), [];
    for i := 0 to |keys|
      invariant done == NonEmpty(batch, keys[..i]) && AllAccepted(done, n, storage.accepts)
      invariant storage.attempts == old(storage.attempts) + done
    {
      NonEmptyNext(batch, keys, i);
      if batch[keys[i]] == [] {
        continue;
      }
      var s := Series(keys[i], batch[keys[i]]);
      var accepted := WriteNext(storage, s, done, ws, old(storage.attempts));
      if !accepted {
        return false;
      }
      done := done + [s];
    }
    assert done == ws by { assert keys[..|keys|] == keys; }
    assert Attempted(ws, n, storage.accepts) == ws by { AttemptedAll(ws, n, storage.accepts); }
    return true;
  }

  /** One write of the loop, after the series `done` of `ws`. */
  method WriteNext(storage: Storage, s: Series, ghost done: seq<Series>, ghost ws: seq<Series>, ghost before: seq<Series>)
    returns (accepted: bool)
    requires storage.attempts == before + done && done + [s] <= ws && AllAccepted(done, |before|, storage.accepts)
    modifies storage
    ensures accepted ==> storage.attempts == before + (done + [s]) && AllAccepted(done + [s], |before|, storage.accepts)
    ensures !accepted ==>
      storage.attempts == before + Attempted(ws, |before|, storage.accepts) && !AllAccepted(ws, |before|, storage.accepts)
  {
    accepted := storage.Write(s);
    assert before + done + [s] == before + (done + [s]);
    if !accepted {
      StopAtFailure(done, s, ws, |before|, storage.accepts);
    }
  }

  lemma NonEmptyNext(batch: Batch, keys: seq<Labels>, i: nat)
    requires i < |keys| && forall j :: 0 <= j < |keys| ==> keys[j] in batch
    ensures NonEmpty(batch, keys[..i + 1])
         == if batch[keys[i]] == [] then NonEmpty(batch, keys[..i]) else NonEmpty(batch, keys[..i]) + [Series(keys[i], batch[keys[i]])]
    ensures NonEmpty(batch, keys[..i + 1]) <= NonEmpty(batch, keys)
  {
    assert keys[..i + 1][..i] == keys[..i];
    NonEmptyPrefix(batch, keys, i + 1);
  }

  lemma {:induction false} NonEmptyPrefix(batch: Batch, keys: seq<Labels>, i: nat)
    requires i <= |keys| && forall j :: 0 <= j < |keys| ==> keys[j] in batch
    ensures NonEmpty(batch, keys[..i]) <= NonEmpty(batch, keys)
    decreases |keys|
  {
    if i == |keys| {
      assert keys[..i] == keys;
    } else {
      var n := |keys| - 1;
      NonEmptyPrefix(batch, keys[..n], i);
      assert keys[..n][..i] == keys[..i];
    }
  }

  lemma StopAtFailure(done: seq<Series>, s: Series, ws: seq<Series>, n: nat, accepts: Environment)
    requires AllAccepted(done, n, accepts) && !accepts(n + |done|) && done + [s] <= ws
    ensures !AllAccepted(ws, n, accepts) && Attempted(ws, n, accepts) == done + [s]
  {
    var rest := ws[|done|..];
    assert ws == done + rest && rest[0] == s;
    AttemptedConcat(done, rest, n, accepts);
  }
}
