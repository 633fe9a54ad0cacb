/** Counting and ranking in finite collections, independent of the order of insertion. A value is
    ranked through the index of the bucket it falls into. */
module OrderStatistics {

  /** How many elements lie in the half-open interval [lo, hi). */
  function CountIn(s: seq<real>, lo: real, hi: real): nat {
    if s == [] then 0 else (if lo <= s[0] < hi then 1 else 0) + CountIn(s[1..], lo, hi)
  }

  /** How many elements lie below x. */
  function CountUnder(s: seq<real>, x: real): nat {
    if s == [] then 0 else (if s[0] < x then 1 else 0) + CountUnder(s[1..], x)
  }

  function CountOf(s: seq<int>, k: int): nat {
    if s == [] then 0 else (if s[0] == k then 1 else 0) + CountOf(s[1..], k)
  }

  /** How many indices are smaller than k. */
  function Below(s: seq<int>, k: int): (n: nat)
    ensures n <= |s|
  {
    if s == [] then 0 else (if s[0] < k then 1 else 0) + Below(s[1..], k)
  }

  function Repeat<T>(v: T, n: nat): seq<T> {
    seq(n, _ => v)
  }

  function Map<A, B>(f: A -> B, s: seq<A>): seq<B> {
    seq(|s|, i requires 0 <= i < |s| => f(s[i]))
  }

  ghost predicate Ascending(s: seq<real>) {
    forall i, j :: 0 <= i < j < |s| ==> s[i] <= s[j]
  }

  /** t lists the elements of s in ascending order, so t[k] is the element of 0-based rank k. */
  ghost predicate Ranking(s: seq<real>, t: seq<real>) {
    multiset(s) == multiset(t) && Ascending(t)
  }

  function Insert(x: real, t: seq<real>): (r: seq<real>)
    ensures |r| == |t| + 1
  {
    if t == [] || x <= t[0] then [x] + t else [t[0]] + Insert(x, t[1..])
  }

  /** The elements of s in ascending order. */
  function Ranked(s: seq<real>): (t: seq<real>)
    ensures |t| == |s|
  {
    if s == [] then [] else Insert(s[0], Ranked(s[1..]))
  }

  lemma {:induction false} InsertContents(x: real, t: seq<real>)
    ensures multiset(Insert(x, t)) == multiset{x} + multiset(t)
  {
    if t != [] && x > t[0] {
      InsertContents(x, t[1..]);
      assert t == [t[0]] + t[1..];
    }
  }

  lemma {:induction false} InsertAscending(x: real, t: seq<real>, low: real)
    requires Ascending(t) && low <= x && (t != [] ==> low <= t[0])
    ensures Ascending(Insert(x, t)) && low <= Insert(x, t)[0]
  {
    if t != [] && x > t[0] {
      assert forall i :: 1 <= i < |t| ==> t[0] <= t[i];
      InsertAscending(x, t[1..], t[0]);
      PrependAscending(t[0], Insert(x, t[1..]));
    } else if t != [] {
      PrependAscending(x, t);
    }
  }

  lemma PrependAscending(x: real, t: seq<real>)
    requires Ascending(t) && (t != [] ==> x <= t[0])
    ensures Ascending([x] + t)
  {
    var r := [x] + t;
    forall i, j | 0 <= i < j < |r| ensures r[i] <= r[j] {
      assert r[j] == t[j - 1];
      assert j == 1 || t[0] <= t[j - 1];
    }
  }

  /** Every collection has a ranking. */
  lemma {:induction false} RankedIsRanking(s: seq<real>)
    ensures Ranking(s, Ranked(s))
  {
    if s != [] {
      var t := Ranked(s[1..]);
      RankedIsRanking(s[1..]);
      InsertContents(s[0], t);
      InsertAscending(s[0], t, if t == [] || s[0] <= t[0] then s[0] else t[0]);
      assert s == [s[0]] + s[1..];
    }
  }

  lemma {:induction false} CountOfAppend(a: seq<int>, b: seq<int>, k: int)
    ensures CountOf(a + b, k) == CountOf(a, k) + CountOf(b, k)
  {
    if a == [] {
      assert a + b == b;
    } else {
      assert (a + b)[1..] == a[1..] + b;
      CountOfAppend(a[1..], b, k);
    }
  }

  lemma {:induction false} CountOfRepeat(v: int, n: nat, k: int)
    ensures CountOf(Repeat(v, n), k) == if v == k then n else 0
  {
    if n > 0 {
      assert Repeat(v, n)[1..] == Repeat(v, n - 1);
      CountOfRepeat(v, n - 1, k);
    }
  }

  /** Counting an index is counting the values of the interval it stands for. */
  lemma {:induction false} CountInInterval(f: real -> int, s: seq<real>, k: int, lo: real, hi: real)
    requires forall i :: 0 <= i < |s| ==> (f(s[i]) == k <==> lo <= s[i] < hi)
    ensures CountOf(Map(f, s), k) == CountIn(s, lo, hi)
  {
    if s != [] {
      assert f(s[0]) == k <==> lo <= s[0] < hi;
      assert Map(f, s)[1..] == Map(f, s[1..]);
      CountInInterval(f, s[1..], k, lo, hi);
    }
  }

  /** Counting smaller indices is counting the values below the boundary they stand for. */
  lemma {:induction false} BelowIsUnder(f: real -> int, s: seq<real>, k: int, x: real)
    requires forall i :: 0 <= i < |s| ==> (f(s[i]) < k <==> s[i] < x)
    ensures Below(Map(f, s), k) == CountUnder(s, x)
  {
    if s != [] {
      assert f(s[0]) < k <==> s[0] < x;
      assert Map(f, s)[1..] == Map(f, s[1..]);
      BelowIsUnder(f, s[1..], k, x);
    }
  }

  lemma {:induction false} BelowAppend(a: seq<int>, b: seq<int>, k: int)
    ensures Below(a + b, k) == Below(a, k) + Below(b, k)
  {
    if a == [] {
      assert a + b == b;
    } else {
      assert (a + b)[1..] == a[1..] + b;
      BelowAppend(a[1..], b, k);
    }
  }

  lemma {:induction false} BelowNext(s: seq<int>, k: int)
    ensures Below(s, k + 1) == Below(s, k) + CountOf(s, k)
  {
    if s != [] {
      BelowNext(s[1..], k);
    }
  }

  /** Two thresholds with no index between them count the same. */
  lemma {:induction false} BelowSame(s: seq<int>, j: int, k: int)
    requires j <= k && forall i :: 0 <= i < |s| ==> s[i] < j || s[i] >= k
    ensures Below(s, j) == Below(s, k)
  {
    if s != [] {
      assert s[0] < j || s[0] >= k;
      BelowSame(s[1..], j, k);
    }
  }

  lemma {:induction false} BelowNone(s: seq<int>, k: int)
    requires forall i :: 0 <= i < |s| ==> k <= s[i]
    ensures Below(s, k) == 0
  {
    if s != [] {
      assert k <= s[0];
      BelowNone(s[1..], k);
    }
  }

  lemma {:induction false} BelowAll(s: seq<int>, k: int)
    requires forall i :: 0 <= i < |s| ==> s[i] < k
    ensures Below(s, k) == |s|
  {
    if s != [] {
      assert s[0] < k;
      BelowAll(s[1..], k);
    }
  }

  /** In an ascending list the indices below k are exactly the first Below(t, k). */
  lemma {:induction false} BelowAscending(t: seq<int>, r: nat, k: int)
    requires r < |t| && forall i, j :: 0 <= i < j < |t| ==> t[i] <= t[j]
    ensures t[r] < k <==> r < Below(t, k)
  {
    if t[0] >= k {
      forall i | 0 <= i < |t| ensures k <= t[i] {
        assert i == 0 || t[0] <= t[i];
      }
      BelowNone(t, k);
    } else if r > 0 {
      BelowAscending(t[1..], r - 1, k);
    }
  }

  /** A permutation can be peeled one element at a time. */
  lemma PeelPermutation<T>(a: seq<T>, b: seq<T>) returns (j: nat)
    requires a != [] && multiset(a) == multiset(b)
    ensures j < |b| && b[j] == a[0]
    ensures multiset(a[1..]) == multiset(b[..j] + b[j + 1..])
    ensures b == b[..j] + [b[j]] + b[j + 1..]
  {
    assert a[0] in multiset(b);
    j :| 0 <= j < |b| && b[j] == a[0];
    assert a == [a[0]] + a[1..];
    assert b == b[..j] + [b[j]] + b[j + 1..];
    assert multiset(b) == multiset(b[..j] + b[j + 1..]) + multiset{a[0]};
    assert multiset(a) == multiset(a[1..]) + multiset{a[0]};
    assert multiset(a[1..]) == multiset(a) - multiset{a[0]};
    assert multiset(b[..j] + b[j + 1..]) == multiset(b) - multiset{a[0]};
  }

  lemma PermutationLength<T>(a: seq<T>, b: seq<T>)
    requires multiset(a) == multiset(b)
    ensures |a| == |b|
  {
    assert |multiset(a)| == |a| && |multiset(b)| == |b|;
  }

  /** Counting through an index is independent of order. */
  lemma {:induction false} BelowPermutation(f: real -> int, s: seq<real>, t: seq<real>, k: int)
    requires multiset(s) == multiset(t)
    ensures Below(Map(f, s), k) == Below(Map(f, t), k)
    decreases |s|
  {
    PermutationLength(s, t);
    if s == [] {
      assert Map(f, s) == Map(f, t);
    } else {
      var j := PeelPermutation(s, t);
      var before, after := t[..j], t[j + 1..];
      BelowPermutation(f, s[1..], before + after, k);
      assert Map(f, s)[1..] == Map(f, s[1..]);
      assert Map(f, before + after) == Map(f, before) + Map(f, after);
      assert Map(f, t) == Map(f, before) + [f(t[j])] + Map(f, after);
      BelowAppend(Map(f, before), Map(f, after), k);
      BelowAppend(Map(f, before) + [f(t[j])], Map(f, after), k);
      BelowAppend(Map(f, before), [f(t[j])], k);
    }
  }

  /** When rank r falls between the two counts of bucket k, the element of rank r is in bucket k. */
  lemma RankInBucket(f: real -> int, s: seq<real>, t: seq<real>, r: nat, k: int)
    requires forall x, y :: x <= y && x in s && y in s ==> f(x) <= f(y)
    requires Ranking(s, t) && r < |t|
    requires Below(Map(f, s), k) <= r < Below(Map(f, s), k + 1)
    ensures f(t[r]) == k
  {
    var u := Map(f, t);
    forall i, j | 0 <= i < j < |u| ensures u[i] <= u[j] {
      assert t[i] in multiset(s) && t[j] in multiset(s);
    }
    BelowPermutation(f, s, t, k);
    BelowPermutation(f, s, t, k + 1);
    BelowAscending(u, r, k);
    BelowAscending(u, r, k + 1);
  }
}
