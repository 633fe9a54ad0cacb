/** Integer powers of a real base above one, and the logarithmic bucket index of DDSketch:
    the integer i with (1 + alpha)^i <= v < (1 + alpha)^(i + 1), which is floor(log v / log(1 + alpha)). */
module RealPower {

  import opened RealArithmetic

  function PowNat(g: real, n: nat): (r: real)
    requires g > 0.0
    ensures r > 0.0
  {
    if n == 0 then 1.0
    else
      var r := PowNat(g, n - 1);
      MulPositive(g, r);
      g * r
  }

  function Pow(g: real, i: int): (r: real)
    requires g > 0.0
    ensures r > 0.0
  {
    if i >= 0 then PowNat(g, i)
    else
      Reciprocal(PowNat(g, -i));
      1.0 / PowNat(g, -i)
  }

  lemma CancelFactor(g: real, x: real)
    requires g > 0.0 && x > 0.0
    ensures g * x > 0.0 && g * (1.0 / (g * x)) == 1.0 / x
  {
    MulPositive(g, x);
    var r := 1.0 / (g * x);
    Reciprocal(g * x);
    assert r * (g * x) == 1.0;
    assert (g * r) * x == r * (g * x);
    var w := g * r;
    assert w * x == 1.0;
    assert w == 1.0 / x;
  }

  lemma PowStep(g: real, i: int)
    requires g > 0.0
    ensures Pow(g, i + 1) == g * Pow(g, i)
  {
    if i < 0 {
      var x := PowNat(g, -i - 1);
      assert PowNat(g, -i) == g * x;
      CancelFactor(g, x);
    }
  }

  lemma PowUnit(g: real)
    requires g > 0.0
    ensures Pow(g, 0) == 1.0 && Pow(g, 1) == g
  {
    PowStep(g, 0);
  }

  lemma PowStepUp(g: real, i: int)
    requires g > 1.0
    ensures Pow(g, i) < Pow(g, i + 1)
  {
    Larger(g, Pow(g, i));
    PowStep(g, i);
  }

  lemma {:induction false} PowIncreasing(g: real, i: int, j: int)
    requires g > 1.0 && i < j
    ensures Pow(g, i) < Pow(g, j)
    decreases j - i
  {
    var p, q := Pow(g, j - 1), Pow(g, j);
    assert p < q by { PowStepUp(g, j - 1); }
    if i < j - 1 {
      PowIncreasing(g, i, j - 1);
    }
  }

  lemma PowMonotone(g: real, i: int, j: int)
    requires g > 1.0 && i <= j
    ensures Pow(g, i) <= Pow(g, j)
  {
    if i < j {
      PowIncreasing(g, i, j);
    }
  }

  lemma BernoulliStep(alpha: real, x: real, r: real)
    requires alpha > 0.0 && x >= 0.0 && r >= 1.0 + x
    ensures (1.0 + alpha) * r >= 1.0 + (x + alpha)
  {
    MulMono(1.0 + x, r, 1.0 + alpha);
    assert (1.0 + alpha) * (1.0 + x) == 1.0 + x + alpha + alpha * x;
    MulMono(0.0, x, alpha);
  }

  lemma Multiple(n: nat, alpha: real)
    requires n > 0 && alpha > 0.0
    ensures (n as real) * alpha == ((n - 1) as real) * alpha + alpha && ((n - 1) as real) * alpha >= 0.0
  {
    MulMono(0.0, (n - 1) as real, alpha);
  }

  lemma {:induction false} Bernoulli(alpha: real, n: nat)
    requires alpha > 0.0
    ensures PowNat(1.0 + alpha, n) >= 1.0 + (n as real) * alpha
  {
    if n > 0 {
      Bernoulli(alpha, n - 1);
      Multiple(n, alpha);
      BernoulliStep(alpha, ((n - 1) as real) * alpha, PowNat(1.0 + alpha, n - 1));
    }
  }

  /** Powers of 1 + alpha exceed every real: an exponent that is large enough for v. */
  function LargeExponent(alpha: real, v: real): (n: nat)
    requires alpha > 0.0 && v > 0.0
    ensures PowNat(1.0 + alpha, n) > v
  {
    var q := v / alpha;
    assert q > 0.0 && q * alpha == v;
    var n := q.Floor + 1;
    Bernoulli(alpha, n);
    MulStrict(q, n as real, alpha);
    n
  }

  function Climb(alpha: real, v: real, i: nat, ghost top: nat): (r: int)
    requires alpha > 0.0 && v > 0.0
    requires Pow(1.0 + alpha, i) <= v < Pow(1.0 + alpha, top)
    ensures Pow(1.0 + alpha, r) <= v < Pow(1.0 + alpha, r + 1)
    decreases top - i
  {
    if v < Pow(1.0 + alpha, i + 1) then i
    else
      assert i + 1 < top by {
        if top <= i + 1 { PowMonotone(1.0 + alpha, top, i + 1); }
      }
      Climb(alpha, v, i + 1, top)
  }

  function Descend(alpha: real, v: real, i: int, ghost bottom: int): (r: int)
    requires alpha > 0.0 && v > 0.0
    requires Pow(1.0 + alpha, bottom) <= v < Pow(1.0 + alpha, i + 1)
    ensures Pow(1.0 + alpha, r) <= v < Pow(1.0 + alpha, r + 1)
    decreases i - bottom
  {
    if Pow(1.0 + alpha, i) <= v then i
    else
      assert bottom < i by {
        if i <= bottom { PowMonotone(1.0 + alpha, i, bottom); }
      }
      Descend(alpha, v, i - 1, bottom)
  }

  lemma ReciprocalBound(x: real, v: real)
    requires x > 0.0 && v > 0.0 && x > 1.0 / v
    ensures 1.0 / x <= v
  {
    MulStrict(1.0 / v, x, v);
    assert v * (1.0 / v) == 1.0;
    Reciprocal(x);
    MulMono(1.0, v * x, 1.0 / x);
    assert (1.0 / x) * (v * x) == v * ((1.0 / x) * x);
  }

  ghost function SmallExponent(alpha: real, v: real): (i: int)
    requires alpha > 0.0 && 0.0 < v < 1.0
    ensures Pow(1.0 + alpha, i) <= v
  {
    Reciprocal(v);
    var n: int := LargeExponent(alpha, 1.0 / v);
    ReciprocalBound(PowNat(1.0 + alpha, n), v);
    -n
  }

  /** The bucket of v. */
  function BucketIndex(alpha: real, v: real): (r: int)
    requires alpha > 0.0 && v > 0.0
    ensures Pow(1.0 + alpha, r) <= v < Pow(1.0 + alpha, r + 1)
  {
    if v >= 1.0 then Climb(alpha, v, 0, LargeExponent(alpha, v))
    else
      Descend(alpha, v, -1, SmallExponent(alpha, v))
  }

  /** Buckets are disjoint: the index is the only integer whose interval contains v. */
  lemma BucketIndexUnique(alpha: real, v: real, i: int)
    requires alpha > 0.0 && v > 0.0
    ensures Pow(1.0 + alpha, i) <= v < Pow(1.0 + alpha, i + 1) <==> i == BucketIndex(alpha, v)
  {
    var r := BucketIndex(alpha, v);
    if i < r {
      PowMonotone(1.0 + alpha, i + 1, r);
    } else if i > r {
      PowMonotone(1.0 + alpha, r + 1, i);
    }
  }

  /** Comparing a value with a bucket boundary is comparing bucket indices. */
  lemma BelowBoundary(alpha: real, v: real, i: int)
    requires alpha > 0.0 && v > 0.0
    ensures v < Pow(1.0 + alpha, i) <==> BucketIndex(alpha, v) < i
  {
    var r := BucketIndex(alpha, v);
    if r < i {
      PowMonotone(1.0 + alpha, r + 1, i);
    } else {
      PowMonotone(1.0 + alpha, i, r);
    }
  }
}
