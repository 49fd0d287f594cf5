/** Addresses as 32-bit numbers, and the spans of their prefixes. */
module Ipv4 {
  import opened Words

  function Pow2(n: nat): (p: nat)
    ensures p > 0
  {
    if n == 0 then 1 else 2 * Pow2(n - 1)
  }

  /** How many addresses a prefix has. */
  function Span(ones: nat): nat
    requires ones <= 32
  {
    Pow2(32 - ones)
  }

  /** Which block of `m` consecutive numbers `a` lies in, counting from 0. */
  function BlockOf(a: nat, m: nat): nat
    requires m > 0
  {
    a / m
  }

  lemma {:induction false} PowGrows(a: nat, b: nat)
    requires a <= b
    ensures Pow2(a) <= Pow2(b)
  {
    if a < b {
      PowGrows(a, b - 1);
    }
  }

  lemma {:induction false} PowAdd(a: nat, b: nat)
    ensures Pow2(a + b) == Pow2(a) * Pow2(b)
  {
    if a > 0 {
      PowAdd(a - 1, b);
      assert Pow2(a + b) == 2 * Pow2(a - 1 + b);
    }
  }

  lemma Pow32()
    ensures Pow2(32) == TWO32
  {
    assert Pow2(8) == 256;
    PowAdd(8, 8);
    PowAdd(16, 16);
  }

  lemma BlockFits(m: nat, q: nat, r: nat, k: nat)
    requires m * q + r < m * k
    ensures q < k && m * q + m <= m * k
  {
    assert q >= k ==> m * q >= m * k;
    assert q + 1 <= k ==> m * (q + 1) <= m * k;
    assert m * (q + 1) == m * q + m;
  }

  lemma BlockIs(a: nat, m: nat, q: nat, r: nat)
    requires m > 0 && r < m && a == m * q + r
    ensures BlockOf(a, m) == q
  {
    var d := a / m - q;
    assert a == m * (a / m) + a % m;
    assert m * d == r - a % m;
    assert d >= 1 ==> m * d >= m;
    assert d <= -1 ==> m * d + m <= 0;
  }

  /** Two blocks side by side make one of twice the size. */
  lemma BlockPairs(a: nat, m: nat)
    requires m > 0
    ensures BlockOf(a, 2 * m) == BlockOf(a, m) / 2
  {
    var q, r := a / m, a % m;
    assert a == m * q + r;
    assert m * q == m * (2 * (q / 2) + q % 2) == 2 * m * (q / 2) + m * (q % 2);
    assert m * (q % 2) == if q % 2 == 0 then 0 else m;
    BlockIs(a, 2 * m, q / 2, m * (q % 2) + r);
  }

  /** One block further on, around the end of `n` blocks. */
  lemma NextBlock(a: nat, m: nat, n: nat, total: nat)
    requires m > 0 && n > 0 && total == m * n && a < total
    ensures BlockOf(a, m) < n && BlockOf((a + m) % total, m) == (BlockOf(a, m) + 1) % n
  {
    var q, r := a / m, a % m;
    assert a == m * q + r;
    BlockFits(m, q, r, n);
    Step(a, m, q, r);
    if q + 1 < n {
      Inside(m, q, r, n);
      ModSmall(a + m, total);
      ModSmall(q + 1, n);
    } else {
      Step(r, m, 0, r);
      assert a + m == total + r by { assert m * (q + 1) == m * q + m; }
      ModWrap(r, total);
      ModWrap(0, n);
    }
  }

  lemma Below(m: nat, a: nat, b: nat)
    requires a <= b
    ensures m * a <= m * b
  {
  }

  lemma Inside(m: nat, q: nat, r: nat, n: nat)
    requires r < m && q + 1 < n
    ensures m * q + r + m < m * n
  {
    var k := q + 2;
    assert m * k == m * q + 2 * m;
    Below(m, k, n);
  }

  lemma Step(a: nat, m: nat, q: nat, r: nat)
    requires m > 0 && r < m && a == m * q + r
    ensures BlockOf(a, m) == q && BlockOf(a + m, m) == q + 1
  {
    BlockIs(a, m, q, r);
    assert m * (q + 1) == m * q + m;
    BlockIs(a + m, m, q + 1, r);
  }
}
