/** Facts about division, powers of two and set sizes, kept apart so that the models see only their conclusions. */
module Arith {

  lemma MulSum(a: int, d: int, m: int)
    ensures (a + d) * m == a * m + d * m
  {
  }

  lemma MulAtLeast(d: int, m: int)
    requires d >= 1 && m >= 0
    ensures d * m >= m
  {
  }

  lemma DivisionUnique(a: int, b: int, q: int, r: int, m: int)
    requires 0 <= b < m && 0 <= r < m && a * m + b == q * m + r
    ensures a == q && b == r
  {
    if a < q {
      MulSum(a, q - a, m);
      MulAtLeast(q - a, m);
    } else if q < a {
      MulSum(q, a - q, m);
      MulAtLeast(a - q, m);
    }
  }

  lemma QuotientRemainder(q: nat, m: nat, r: nat)
    requires r < m
    ensures (q * m + r) / m == q && (q * m + r) % m == r
  {
    var x := q * m + r;
    DivisionUnique(x / m, x % m, q, r, m);
  }

  lemma Distribute(p: int, k: int, q: int, r: int)
    ensures p * (k * q + r) == k * (p * q) + p * r
  {
  }

  lemma MulStrict(p: int, a: int, b: int)
    requires p >= 1 && a < b
    ensures p * a < p * b
  {
    MulSum(b - a, a, p);
    MulAtLeast(b - a, p);
  }

  lemma Euclid(x: nat, q: nat)
    requires q >= 1
    ensures x == x / q * q + x % q && 0 <= x % q < q
  {
  }

  lemma SmallRemainder(x: nat, m: nat)
    requires x < m
    ensures x % m == x
  {
  }

  /** Rounding down to a multiple keeps the quotient. */
  lemma RoundedDown(x: nat, m: nat)
    requires m >= 1
    ensures 0 <= x / m * m <= x && x / m * m / m == x / m
  {
    QuotientRemainder(x / m, m, 0);
  }

  /** Dividing twice is dividing once by the product. */
  lemma DivTwice(x: nat, m: nat, n: nat)
    requires m >= 1 && n >= 1
    ensures m * n >= 1 && x / (m * n) == x / m / n
  {
    var a, b := x / m, x % m;
    var q, c := a / n, a % n;
    MulAtLeast(m, n);
    MulSum(q * n, c, m);
    MulSum(c, 1, m);
    assert (c + 1) * m <= n * m by {
      MulSum(c + 1, n - c - 1, m);
    }
    var r := c * m + b;
    assert m * n == n * m;
    assert x == q * (m * n) + r;
    assert 0 <= r < m * n;
    DivisionUnique(x / (m * n), x % (m * n), q, r, m * n);
  }

  function Pow2(n: nat): (p: nat)
    ensures p >= 1
  {
    if n == 0 then 1 else 2 * Pow2(n - 1)
  }

  lemma {:induction false} Pow2Monotone(a: nat, b: nat)
    requires a <= b
    ensures Pow2(a) <= Pow2(b)
  {
    if a < b {
      Pow2Monotone(a, b - 1);
    }
  }

  lemma Pow2Values()
    ensures Pow2(8) == 256 && Pow2(16) == 65536 && Pow2(32) == 0x1_0000_0000
  {
    assert Pow2(4) == 16;
    assert Pow2(8) == 256;
    assert Pow2(12) == 4096;
    assert Pow2(16) == 65536;
    assert Pow2(20) == 0x10_0000;
    assert Pow2(24) == 0x100_0000;
    assert Pow2(28) == 0x1000_0000;
  }

  lemma {:induction false} Pow2Sum(a: nat, b: nat)
    ensures Pow2(a + b) == Pow2(a) * Pow2(b)
  {
    if a > 0 {
      Pow2Sum(a - 1, b);
      assert 2 * (Pow2(a - 1) * Pow2(b)) == (2 * Pow2(a - 1)) * Pow2(b);
    }
  }

  lemma {:induction false} SubsetSize<T>(a: set<T>, b: set<T>)
    requires a <= b
    ensures |a| <= |b|
  {
    assert b == a + (b - a);
  }
}
