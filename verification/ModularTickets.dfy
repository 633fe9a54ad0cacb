/** Facts about `pos % capacity`: a window of `capacity` consecutive tickets uses every slot once. */
module ModularTickets {

  lemma SmallMultipleIsZero(c: int, d: int)
    requires c >= 1 && -c < c * d < c
    ensures d == 0
  {
  }

  /** Quotient and remainder are unique. */
  lemma RemainderUnique(p: int, c: int, k: int, r: int)
    requires 0 <= r < c && p == c * k + r
    ensures p % c == r
  {
    assert p == c * (p / c) + p % c;
    assert c * (p / c - k) == c * (p / c) - c * k;
    SmallMultipleIsZero(c, p / c - k);
  }

  lemma Laps(p: int, k: int, c: int)
    requires c >= 1
    ensures (p + c * k) % c == p % c
  {
    var q, r := p / c, p % c;
    assert p + c * k == c * (q + k) + r;
    RemainderUnique(p + c * k, c, q + k, r);
  }

  /** The tickets before the first one use the slots in order. */
  lemma BeforeFirst(p: int, c: int)
    requires -c <= p < 0
    ensures p % c == p + c
  {
    RemainderUnique(p, c, -1, p + c);
  }

  lemma SameSlotSameTicket(p: int, q: int, c: int)
    requires c >= 1 && p % c == q % c && -c < p - q < c
    ensures p == q
  {
    assert p == c * (p / c) + p % c;
    assert q == c * (q / c) + q % c;
    assert c * (p / c - q / c) == c * (p / c) - c * (q / c);
    SmallMultipleIsZero(c, p / c - q / c);
  }

  /** The ticket of the window [end - c, end) that uses the same slot as p. */
  function Current(p: int, end: int, c: int): (q: int)
    requires c >= 1
    ensures end - c <= q < end && q % c == p % c
  {
    var m, d := (p - end) / c, (p - end) % c;
    assert end - c + d == p + c * (-m - 1);
    Laps(p, -m - 1, c);
    end - c + d
  }

  /** A ticket below the window is at least one lap behind the current ticket of its slot. */
  lemma CurrentIsLater(p: int, end: int, c: int)
    requires c >= 1 && p < end - c
    ensures Current(p, end, c) >= p + c
  {
    var q := Current(p, end, c);
    if q < p + c {
      SameSlotSameTicket(p, q, c);
      assert false;
    }
  }
}
