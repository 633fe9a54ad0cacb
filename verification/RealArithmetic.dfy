/** Small facts about products and quotients of reals. */
module RealArithmetic {

  lemma MulPositive(x: real, y: real)
    requires x > 0.0 && y > 0.0
    ensures x * y > 0.0
  {
  }

  lemma MulMono(x: real, y: real, k: real)
    requires x <= y && k >= 0.0
    ensures k * x <= k * y && x * k <= y * k
  {
  }

  lemma MulStrict(x: real, y: real, k: real)
    requires x < y && k > 0.0
    ensures k * x < k * y && x * k < y * k
  {
  }

  lemma Larger(g: real, p: real)
    requires g > 1.0 && p > 0.0
    ensures p < g * p
  {
    MulStrict(1.0, g, p);
  }

  lemma Reciprocal(x: real)
    requires x > 0.0
    ensures 1.0 / x > 0.0 && (1.0 / x) * x == 1.0
  {
    assert (1.0 / x) * x == 1.0;
  }

  lemma DivMonotone(x: real, y: real, d: real)
    requires x <= y && d > 0.0
    ensures x / d <= y / d
  {
  }

  lemma FractionBelowOne(m: nat, n: nat)
    requires m < n
    ensures 0.0 <= m as real / n as real < 1.0
  {
  }

  lemma FractionAtMostOne(x: real, y: real)
    requires 0.0 < x <= y
    ensures 0.0 < x / y <= 1.0
  {
  }

  lemma Scaled(f: real, w: real)
    requires 0.0 <= f < 1.0 && w > 0.0
    ensures 0.0 <= f * w < w
  {
    MulMono(0.0, f, w);
    MulStrict(f, 1.0, w);
  }

  lemma ScaledRank(q: real, n: nat)
    requires 0.0 <= q <= 1.0
    ensures 0 <= (q * n as real).Floor <= n
  {
    MulMono(0.0, q, n as real);
    MulMono(q, 1.0, n as real);
    var x := q * n as real;
    assert 0.0 <= x <= n as real;
  }
}
