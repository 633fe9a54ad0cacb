/** Folding a commutative, associative combination over a sequence: the result depends on neither
    the order of the elements nor how they are split into parts. Both histogram kinds are instances. */
module CommutativeFold {
  import opened OrderStatistics

  /** `combine` is commutative and associative with unit `unit` on the values that satisfy `ok`. */
  ghost predicate Monoid<M(!new)>(ok: M -> bool, combine: (M, M) -> M, unit: M) {
    && ok(unit)
    && (forall x, y :: ok(x) && ok(y) ==> ok(combine(x, y)))
    && (forall x :: ok(x) ==> combine(x, unit) == x)
    && (forall x, y {:trigger Swap(x, y)} :: ok(x) && ok(y) && Swap(x, y) ==> combine(x, y) == combine(y, x))
    && (forall x, y, z {:trigger Regroup(x, y, z)} ::
          ok(x) && ok(y) && ok(z) && Regroup(x, y, z) ==> combine(combine(x, y), z) == combine(x, combine(y, z)))
  }

  /** Always true; asserting it applies commutativity to these two values. */
  ghost predicate Swap<M>(x: M, y: M) {
    true
  }

  /** Always true; asserting it applies associativity to these three values. */
  ghost predicate Regroup<M>(x: M, y: M, z: M) {
    true
  }

  function Fold<A, M>(combine: (M, M) -> M, unit: M, single: A -> M, h: seq<A>): M {
    if h == [] then unit else combine(Fold(combine, unit, single, h[..|h| - 1]), single(h[|h| - 1]))
  }

  lemma {:induction false} FoldOk<A(!new), M(!new)>(ok: M -> bool, combine: (M, M) -> M, unit: M, single: A -> M, h: seq<A>)
    requires Monoid(ok, combine, unit) && forall a :: ok(single(a))
    ensures ok(Fold(combine, unit, single, h))
    decreases |h|
  {
    if h != [] {
      FoldOk(ok, combine, unit, single, h[..|h| - 1]);
    }
  }

  lemma {:induction false} FoldConcat<A(!new), M(!new)>(ok: M -> bool, combine: (M, M) -> M, unit: M, single: A -> M, g: seq<A>, h: seq<A>)
    requires Monoid(ok, combine, unit) && forall a :: ok(single(a))
    ensures Fold(combine, unit, single, g + h)
         == combine(Fold(combine, unit, single, g), Fold(combine, unit, single, h))
    decreases |h|
  {
    FoldOk(ok, combine, unit, single, g);
    if h == [] {
      assert g + h == g;
    } else {
      var h' := h[..|h| - 1];
      FoldOk(ok, combine, unit, single, h');
      FoldConcat(ok, combine, unit, single, g, h');
      assert (g + h)[..|g + h| - 1] == g + h';
      assert Regroup(Fold(combine, unit, single, g), Fold(combine, unit, single, h'), single(h[|h| - 1]));
    }
  }

  lemma {:induction false} FoldPermutation<A(!new), M(!new)>(ok: M -> bool, combine: (M, M) -> M, unit: M, single: A -> M, g: seq<A>, h: seq<A>)
    requires Monoid(ok, combine, unit) && forall a :: ok(single(a))
    requires multiset(g) == multiset(h)
    ensures Fold(combine, unit, single, g) == Fold(combine, unit, single, h)
    decreases |g|
  {
    if g == [] {
      assert |multiset(h)| == 0;
    } else {
      var j := PeelPermutation(g, h);
      var before, x, after := h[..j], [h[j]], h[j + 1..];
      FoldPermutation(ok, combine, unit, single, g[1..], before + after);
      assert x + g[1..] == g;
      FoldConcat(ok, combine, unit, single, x, g[1..]);
      FoldConcat(ok, combine, unit, single, before, after);
      FoldConcat(ok, combine, unit, single, before, x);
      FoldConcat(ok, combine, unit, single, before + x, after);
      FoldOk(ok, combine, unit, single, before);
      FoldOk(ok, combine, unit, single, x);
      FoldOk(ok, combine, unit, single, after);
      var b, m, a := Fold(combine, unit, single, before), Fold(combine, unit, single, x), Fold(combine, unit, single, after);
      assert Swap(b, m) && Regroup(m, b, a);
    }
  }

  /** Combining two parts equals folding all their elements in any order. */
  lemma FoldParts<A(!new), M(!new)>(ok: M -> bool, combine: (M, M) -> M, unit: M, single: A -> M, g: seq<A>, h: seq<A>, all: seq<A>)
    requires Monoid(ok, combine, unit) && forall a :: ok(single(a))
    requires multiset(all) == multiset(g) + multiset(h)
    ensures Fold(combine, unit, single, all)
         == combine(Fold(combine, unit, single, g), Fold(combine, unit, single, h))
  {
    assert multiset(g + h) == multiset(all);
    FoldConcat(ok, combine, unit, single, g, h);
    FoldPermutation(ok, combine, unit, single, all, g + h);
  }
}
