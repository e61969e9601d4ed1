/** Quotients by a positive number, and powers of two. */
module Division {
  lemma QuotientBounds(x: int, c: int, k: int)
    requires c > 0
    ensures x / c <= k <==> x < (k + 1) * c
    ensures k <= x / c <==> k * c <= x
  {
    var q := x / c;
    assert q * c <= x < (q + 1) * c;
    if q <= k { ProductMonotone(q + 1, k + 1, c); } else { ProductMonotone(k + 1, q, c); }
    if k <= q { ProductMonotone(k, q, c); } else { ProductMonotone(q + 1, k, c); }
  }

  lemma ProductMonotone(a: int, b: int, c: int)
    requires a <= b && c > 0
    ensures a * c <= b * c
  {
    assert (b - a) * c >= 0;
  }

  /** Quotient and remainder are unique. */
  lemma ModOf(a: int, q: int, r: int, m: int)
    requires 0 <= r < m && a == q * m + r
    ensures a / m == q && a % m == r
  {
    assert (q + 1) * m == q * m + m;
    QuotientBounds(a, m, q);
    assert a == (a / m) * m + a % m;
  }

  lemma ModNext(a: nat, m: nat)
    requires m > 0
    ensures (a + 1) % m == if a % m == m - 1 then 0 else a % m + 1
  {
    var q, r := a / m, a % m;
    assert a == q * m + r;
    if r == m - 1 {
      assert (q + 1) * m == q * m + m;
      ModOf(a + 1, q + 1, 0, m);
    } else {
      ModOf(a + 1, q, r + 1, m);
    }
  }

  /** How many numbers k bits stand for. */
  function Bits(k: nat): (r: nat)
    ensures r > 0
  {
    if k == 0 then 1 else 2 * Bits(k - 1)
  }

  lemma BitsAdd(j: nat, k: nat)
    ensures Bits(j + k) == Bits(j) * Bits(k)
  {
    if j > 0 {
      BitsAdd(j - 1, k);
    }
  }

  lemma BitsMonotone(j: nat, k: nat)
    requires j <= k
    ensures Bits(j) <= Bits(k)
  {
    if j < k {
      BitsMonotone(j, k - 1);
    }
  }

  lemma EightBits()
    ensures Bits(8) == 0x100
  {
    assert Bits(2) == 4 && Bits(4) == 16 && Bits(6) == 64;
  }

  lemma ThirtyTwoBits()
    ensures Bits(16) == 0x1_0000 && Bits(24) == 0x100_0000 && Bits(32) == 0x1_0000_0000
  {
    EightBits();
    BitsAdd(8, 8);
    BitsAdd(8, 16);
    BitsAdd(8, 24);
  }

  lemma SixtyFourBits()
    ensures Bits(63) == 0x8000_0000_0000_0000 && Bits(64) == 0x1_0000_0000_0000_0000
  {
    ThirtyTwoBits();
    BitsAdd(32, 32);
  }
}
