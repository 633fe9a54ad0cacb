/** Strict total orders, the ordered iteration of a `std::map`, and the lexicographic order that
    `std::string` and `std::map` derive from their elements. */
module Ordering {

  ghost predicate StrictTotal<T(!new)>(lt: (T, T) -> bool) {
    && (forall x :: !lt(x, x))
    && (forall x, y, z :: lt(x, y) && lt(y, z) ==> lt(x, z))
    && (forall x, y :: x == y || lt(x, y) || lt(y, x))
  }

  predicate Increasing<T>(lt: (T, T) -> bool, q: seq<T>) {
    forall i, j :: 0 <= i < j < |q| ==> lt(q[i], q[j])
  }

  lemma {:induction false} LeastExists<T(!new)>(lt: (T, T) -> bool, s: set<T>)
    requires StrictTotal(lt) && s != {}
    ensures exists m :: m in s && forall x :: x in s ==> x == m || lt(m, x)
    decreases |s|
  {
    var a :| a in s;
    var rest := s - {a};
    assert forall x :: x in s ==> x == a || x in rest;
    if rest == {} {
      assert forall x :: x in s ==> x == a || lt(a, x);
    } else {
      LeastExists(lt, rest);
      var m :| m in rest && forall x :: x in rest ==> x == m || lt(m, x);
      var least := if lt(a, m) then a else m;
      assert forall x :: x in s ==> x == least || lt(least, x);
    }
  }

  function Least<T(!new,==)>(lt: (T, T) -> bool, s: set<T>): (m: T)
    requires StrictTotal(lt) && s != {}
    ensures m in s && forall x :: x in s ==> x == m || lt(m, x)
  {
    LeastExists(lt, s);
    var m :| m in s && forall x :: x in s ==> x == m || lt(m, x);
    m
  }

  /** The keys of an ordered container, in iteration order. */
  function Sorted<T(!new,==)>(lt: (T, T) -> bool, s: set<T>): (q: seq<T>)
    requires StrictTotal(lt)
    ensures Increasing(lt, q)
    ensures forall x :: x in q <==> x in s
    ensures |q| == |s|
    decreases |s|
  {
    if s == {} then []
    else
      var m := Least(lt, s);
      [m] + Sorted(lt, s - {m})
  }

  /** There is only one way to list a set in increasing order. */
  lemma {:induction false} SortedUnique<T(!new)>(lt: (T, T) -> bool, p: seq<T>, q: seq<T>)
    requires StrictTotal(lt) && Increasing(lt, p) && Increasing(lt, q)
    requires forall x :: x in p <==> x in q
    ensures p == q
    decreases |p|
  {
    HasMember(q);
    if p != [] {
      assert p[0] in p;
      FirstUnique(lt, p, q);
      forall x ensures x in p[1..] <==> x in q[1..] {
        TailMembers(lt, p, x);
        TailMembers(lt, q, x);
      }
      SortedUnique(lt, p[1..], q[1..]);
      assert p == [p[0]] + p[1..] && q == [q[0]] + q[1..];
    }
  }

  lemma HasMember<T>(q: seq<T>)
    ensures q != [] ==> exists x :: x in q
  {
    if q != [] {
      assert q[0] in q;
    }
  }

  lemma FirstUnique<T(!new)>(lt: (T, T) -> bool, p: seq<T>, q: seq<T>)
    requires StrictTotal(lt) && Increasing(lt, p) && Increasing(lt, q) && p != [] && q != []
    requires forall x :: x in p <==> x in q
    ensures p[0] == q[0]
  {
    assert p[0] in p && q[0] in q;
    FirstIsLeast(lt, p, q[0]);
    FirstIsLeast(lt, q, p[0]);
  }

  lemma FirstIsLeast<T>(lt: (T, T) -> bool, p: seq<T>, x: T)
    requires Increasing(lt, p) && x in p
    ensures p[0] == x || lt(p[0], x)
  {
  }

  lemma TailMembers<T(!new)>(lt: (T, T) -> bool, p: seq<T>, x: T)
    requires StrictTotal(lt) && Increasing(lt, p) && p != []
    ensures x in p[1..] <==> x in p && x != p[0]
  {
    assert p == [p[0]] + p[1..];
    if x in p[1..] {
      var i :| 0 <= i < |p[1..]| && p[1..][i] == x;
      assert lt(p[0], p[i + 1]);
    }
  }

  // ------------------------------------------------------------ lexicographic order

  predicate Lex<T(==)>(lt: (T, T) -> bool, a: seq<T>, b: seq<T>) {
    if b == [] then false
    else if a == [] then true
    else lt(a[0], b[0]) || (a[0] == b[0] && Lex(lt, a[1..], b[1..]))
  }

  /** Lexicographic order: after a common part, the first sequence ends or has the smaller element. */
  lemma {:induction false} LexMeaning<T>(lt: (T, T) -> bool, a: seq<T>, b: seq<T>)
    requires forall x: T :: !lt(x, x)
    ensures Lex(lt, a, b) <==> exists i :: Splits(lt, a, b, i)
    decreases |a|
  {
    if a != [] && b != [] && a[0] == b[0] {
      LexMeaning(lt, a[1..], b[1..]);
      if Lex(lt, a, b) {
        var i :| Splits(lt, a[1..], b[1..], i);
        SplitsNext(lt, a, b, i);
      } else if exists i :: Splits(lt, a, b, i) {
        var i :| Splits(lt, a, b, i);
        SplitsNext(lt, a, b, i - 1);
      }
    } else if Lex(lt, a, b) {
      assert Splits(lt, a, b, 0);
    } else {
      forall i ensures !Splits(lt, a, b, i) {
        SplitsHead(lt, a, b, i);
      }
    }
  }

  lemma SplitsHead<T>(lt: (T, T) -> bool, a: seq<T>, b: seq<T>, i: int)
    ensures Splits(lt, a, b, i) ==> b != [] && (a == [] || a[0] == b[0] || lt(a[0], b[0]))
  {
    if Splits(lt, a, b, i) && i > 0 {
      assert a[..i][0] == b[..i][0];
    }
  }

  ghost predicate Splits<T>(lt: (T, T) -> bool, a: seq<T>, b: seq<T>, i: int) {
    0 <= i <= |a| && i < |b| && a[..i] == b[..i] && (i == |a| || lt(a[i], b[i]))
  }

  lemma SplitsNext<T>(lt: (T, T) -> bool, a: seq<T>, b: seq<T>, i: int)
    requires a != [] && b != [] && a[0] == b[0] && i >= 0
    ensures Splits(lt, a[1..], b[1..], i) <==> Splits(lt, a, b, i + 1)
  {
    if i < |a| && i < |b| {
      assert a[..i + 1] == [a[0]] + a[1..][..i];
      assert b[..i + 1] == [b[0]] + b[1..][..i];
    }
  }

  lemma {:induction false} LexIrreflexive<T(!new)>(lt: (T, T) -> bool, a: seq<T>)
    requires StrictTotal(lt)
    ensures !Lex(lt, a, a)
  {
    if a != [] {
      LexIrreflexive(lt, a[1..]);
    }
  }

  lemma {:induction false} LexTransitive<T(!new)>(lt: (T, T) -> bool, a: seq<T>, b: seq<T>, c: seq<T>)
    requires StrictTotal(lt) && Lex(lt, a, b) && Lex(lt, b, c)
    ensures Lex(lt, a, c)
  {
    if a != [] && a[0] == b[0] && b[0] == c[0] {
      LexTransitive(lt, a[1..], b[1..], c[1..]);
    }
  }

  lemma {:induction false} LexConnected<T(!new)>(lt: (T, T) -> bool, a: seq<T>, b: seq<T>)
    requires StrictTotal(lt)
    ensures a == b || Lex(lt, a, b) || Lex(lt, b, a)
  {
    if a != [] && b != [] && a[0] == b[0] {
      LexConnected(lt, a[1..], b[1..]);
      if a[1..] == b[1..] {
        assert a == [a[0]] + a[1..] && b == [b[0]] + b[1..];
      }
    }
  }

  /** The lexicographic lift of a strict total order is a strict total order. */
  lemma LexTotal<T(!new)>(lt: (T, T) -> bool, lex: (seq<T>, seq<T>) -> bool)
    requires StrictTotal(lt) && forall a, b :: lex(a, b) == Lex(lt, a, b)
    ensures StrictTotal(lex)
  {
    forall a ensures !lex(a, a) {
      LexIrreflexive(lt, a);
    }
    forall a, b, c | lex(a, b) && lex(b, c) ensures lex(a, c) {
      LexTransitive(lt, a, b, c);
    }
    forall a, b ensures a == b || lex(a, b) || lex(b, a) {
      LexConnected(lt, a, b);
    }
  }
}
