/** The storage behind every ingestion path: it records the calls to `write` in order, and an
    arbitrary but fixed environment decides which of them succeed. */
module StorageModel {
  import opened TimeSeries

  /** accepts(n) tells whether the n-th call to write succeeds. */
  type Environment = nat -> bool

  class Storage {
    const accepts: Environment
    var attempts: seq<Series>

    constructor (accepts: Environment)
      ensures this.accepts == accepts && attempts == []
    {
      this.accepts := accepts;
      attempts := [];
    }

    method Write(s: Series) returns (ok: bool)
      modifies this
      ensures attempts == old(attempts) + [s] && ok == accepts(|old(attempts)|)
    {
      ok := accepts(|attempts|);
      attempts := attempts + [s];
    }
  }

  /** The calls made when a list of series is written until the first failure, starting with call n. */
  function Attempted(ws: seq<Series>, n: nat, accepts: Environment): seq<Series> {
    if ws == [] then [] else if !accepts(n) then [ws[0]] else [ws[0]] + Attempted(ws[1..], n + 1, accepts)
  }

  predicate AllAccepted(ws: seq<Series>, n: nat, accepts: Environment) {
    forall i :: n <= i < n + |ws| ==> accepts(i)
  }

  lemma {:induction false} AttemptedConcat(a: seq<Series>, b: seq<Series>, n: nat, accepts: Environment)
    requires AllAccepted(a, n, accepts)
    ensures Attempted(a + b, n, accepts) == a + Attempted(b, n + |a|, accepts)
  {
    if a == [] {
      assert a + b == b;
    } else {
      assert accepts(n);
      assert (a + b)[1..] == a[1..] + b;
      AttemptedConcat(a[1..], b, n + 1, accepts);
    }
  }

  lemma AttemptedAll(ws: seq<Series>, n: nat, accepts: Environment)
    requires AllAccepted(ws, n, accepts)
    ensures Attempted(ws, n, accepts) == ws
  {
    AttemptedConcat(ws, [], n, accepts);
    assert ws + [] == ws;
  }

  /** The calls are the series in order, all of them or up to and including the first failure. */
  lemma {:induction false} AttemptedMeaning(ws: seq<Series>, n: nat, accepts: Environment)
    ensures var a := Attempted(ws, n, accepts);
      && a <= ws
      && (forall i :: n <= i < n + |a| - 1 ==> accepts(i))
      && (|a| < |ws| ==> a != [] && !accepts(n + |a| - 1))
    decreases |ws|
  {
    if ws != [] && accepts(n) {
      AttemptedMeaning(ws[1..], n + 1, accepts);
      var a, b := Attempted(ws, n, accepts), Attempted(ws[1..], n + 1, accepts);
      assert a == [ws[0]] + b && ws == [ws[0]] + ws[1..];
    }
  }
}
