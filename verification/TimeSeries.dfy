/** Labels, samples and series of the core types, and the order in which a `std::map` keyed by labels
    is iterated. */
module TimeSeries {
  import opened Wrappers
  import opened Ordering

  type Labels = map<string, string>

  /** The label that holds a metric's name. */
  const NAME := "__name__"

  datatype Sample = Sample(timestamp: int, value: real)

  datatype Series = Series(labels: Labels, samples: seq<Sample>)

  /** add_sample throws unless the new sample is strictly later than the last one. */
  predicate Accepts(samples: seq<Sample>, x: Sample) {
    samples == [] || samples[|samples| - 1].timestamp < x.timestamp
  }

  /** Adding samples one after another; None means that add_sample threw. */
  function AddAll(samples: seq<Sample>, chunk: seq<Sample>): Option<seq<Sample>>
    decreases |chunk|
  {
    if chunk == [] then Some(samples)
    else if Accepts(samples, chunk[0]) then AddAll(samples + [chunk[0]], chunk[1..])
    else None
  }

  /** Timestamps strictly increase. */
  predicate Chronological(samples: seq<Sample>) {
    forall i, j :: 0 <= i < j < |samples| ==> samples[i].timestamp < samples[j].timestamp
  }

  lemma ChronologicalAppend(samples: seq<Sample>, x: Sample)
    requires Chronological(samples)
    ensures Chronological(samples + [x]) <==> Accepts(samples, x)
  {
    var all := samples + [x];
    if Accepts(samples, x) {
      forall i, j | 0 <= i < j < |all| ensures all[i].timestamp < all[j].timestamp {
        if j == |samples| && i < |samples| - 1 {
          assert samples[i].timestamp < samples[|samples| - 1].timestamp;
        }
      }
    } else {
      assert all[|samples| - 1].timestamp >= all[|samples|].timestamp;
    }
  }

  lemma ChronologicalPrefix(a: seq<Sample>, b: seq<Sample>)
    requires Chronological(a + b)
    ensures Chronological(a)
  {
    assert forall i :: 0 <= i < |a| ==> a[i] == (a + b)[i];
  }

  /** Starting from a chronological series, adding a chunk succeeds exactly when the whole stays
      chronological, and then the series is extended by the chunk. */
  lemma {:induction false} AddAllMeaning(samples: seq<Sample>, chunk: seq<Sample>)
    requires Chronological(samples)
    ensures AddAll(samples, chunk) == if Chronological(samples + chunk) then Some(samples + chunk) else None
    decreases |chunk|
  {
    if chunk == [] {
      assert samples + chunk == samples;
    } else {
      ChronologicalAppend(samples, chunk[0]);
      assert samples + chunk == samples + [chunk[0]] + chunk[1..];
      if Accepts(samples, chunk[0]) {
        AddAllMeaning(samples + [chunk[0]], chunk[1..]);
      } else if Chronological(samples + chunk) {
        ChronologicalPrefix(samples + [chunk[0]], chunk[1..]);
        assert false;
      }
    }
  }

  // ----------------------------------------------------------- the order of label sets

  predicate CharLess(a: char, b: char) {
    a < b
  }

  predicate StringLess(a: string, b: string) {
    Lex(CharLess, a, b)
  }

  type Pair = (string, string)

  predicate PairLess(a: Pair, b: Pair) {
    StringLess(a.0, b.0) || (a.0 == b.0 && StringLess(a.1, b.1))
  }

  lemma StringOrder()
    ensures StrictTotal(StringLess)
  {
    assert StrictTotal(CharLess);
    LexTotal(CharLess, StringLess);
  }

  lemma PairOrder()
    ensures StrictTotal(PairLess)
  {
    StringOrder();
    forall x: Pair ensures !PairLess(x, x) {
    }
    forall x: Pair, y: Pair, z: Pair | PairLess(x, y) && PairLess(y, z) ensures PairLess(x, z) {
    }
    forall x: Pair, y: Pair ensures x == y || PairLess(x, y) || PairLess(y, x) {
    }
  }

  function SortedNames(l: Labels): (q: seq<string>)
    ensures forall x :: x in q <==> x in l
  {
    StringOrder();
    Sorted(StringLess, l.Keys)
  }

  /** The entries of a label set in iteration order. */
  function Entries(l: Labels): (q: seq<Pair>)
    ensures |q| == |SortedNames(l)|
    ensures forall i :: 0 <= i < |q| ==> q[i].0 == SortedNames(l)[i] && q[i].0 in l && q[i].1 == l[q[i].0]
  {
    var names := SortedNames(l);
    assert forall i :: 0 <= i < |names| ==> names[i] in names;
    seq(|names|, i requires 0 <= i < |names| && names[i] in l => (names[i], l[names[i]]))
  }

  /** Labels::operator<, the lexicographic comparison of two `std::map`s. */
  predicate LabelsLess(a: Labels, b: Labels) {
    Lex(PairLess, Entries(a), Entries(b))
  }

  /** Strings are compared by their first difference, a proper prefix being smaller. */
  lemma StringLessMeaning(a: string, b: string)
    ensures StringLess(a, b) <==>
      exists i :: 0 <= i <= |a| && i < |b| && a[..i] == b[..i] && (i == |a| || a[i] < b[i])
  {
    LexMeaning(CharLess, a, b);
    assert forall i :: Splits(CharLess, a, b, i) <==>
      0 <= i <= |a| && i < |b| && a[..i] == b[..i] && (i == |a| || a[i] < b[i]);
  }

  /** The names of a label set, in increasing order. */
  lemma NamesIncrease(l: Labels, i: nat, j: nat)
    requires i < j < |Entries(l)|
    ensures StringLess(Entries(l)[i].0, Entries(l)[j].0)
  {
    StringOrder();
    assert SortedNames(l) == Sorted(StringLess, l.Keys);
  }

  /** Label sets are compared by their first different entry in name order, first by its name and then
      by its value, a label set whose entries begin another's being smaller. */
  lemma LabelsLessMeaning(a: Labels, b: Labels)
    ensures var p, q := Entries(a), Entries(b);
      LabelsLess(a, b) <==>
        exists i :: 0 <= i <= |p| && i < |q| && p[..i] == q[..i]
          && (i == |p| || StringLess(p[i].0, q[i].0) || (p[i].0 == q[i].0 && StringLess(p[i].1, q[i].1)))
  {
    PairOrder();
    var p, q := Entries(a), Entries(b);
    LexMeaning(PairLess, p, q);
    assert forall i :: Splits(PairLess, p, q, i) <==>
      0 <= i <= |p| && i < |q| && p[..i] == q[..i]
        && (i == |p| || StringLess(p[i].0, q[i].0) || (p[i].0 == q[i].0 && StringLess(p[i].1, q[i].1)));
  }

  /** Different label sets have different entries. */
  lemma EntriesInjective(a: Labels, b: Labels)
    requires Entries(a) == Entries(b)
    ensures a == b
  {
    var p, q := SortedNames(a), SortedNames(b);
    assert p == q;
    forall x ensures x in a <==> x in b {
      assert x in p <==> x in q;
    }
    forall x | x in a ensures a[x] == b[x] {
      var i := EntryOf(a, x);
      assert Entries(b)[i].0 in b && Entries(b)[i].1 == b[x];
    }
  }

  lemma EntryOf(l: Labels, x: string) returns (i: nat)
    requires x in l
    ensures i < |Entries(l)| && Entries(l)[i] == (x, l[x])
  {
    var names := SortedNames(l);
    assert x in names;
    i :| 0 <= i < |names| && names[i] == x;
    assert Entries(l)[i].0 == x;
  }

  /** operator< is a strict total order whose only ties are equal label sets, so a `std::map` keyed
      by labels never confuses two series. */
  lemma LabelsOrder()
    ensures StrictTotal(LabelsLess)
  {
    PairOrder();
    forall a ensures !LabelsLess(a, a) {
      LexIrreflexive(PairLess, Entries(a));
    }
    forall a, b, c | LabelsLess(a, b) && LabelsLess(b, c) ensures LabelsLess(a, c) {
      LexTransitive(PairLess, Entries(a), Entries(b), Entries(c));
    }
    forall a, b ensures a == b || LabelsLess(a, b) || LabelsLess(b, a) {
      LexConnected(PairLess, Entries(a), Entries(b));
      if Entries(a) == Entries(b) {
        EntriesInjective(a, b);
      }
    }
  }
}
