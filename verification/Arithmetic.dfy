/** Division with a remainder. */
module Arithmetic {

  /** The number of values of a 32-bit integer. */
  const UINT32 := 0x1_0000_0000

  lemma MulBound(k: int, d: int)
    requires d > 0
    ensures k >= 1 ==> k * d >= d
    ensures k <= -1 ==> k * d <= -d
  {
    if k >= 1 {
      assert (k - 1) * d >= 0;
    } else if k <= -1 {
      assert (k + 1) * d <= 0;
    }
  }

  lemma Unique(v: int, d: int, q: int, r: int)
    requires d > 0 && 0 <= r < d && v == q * d + r
    ensures v / d == q && v % d == r
  {
    var k := v / d - q;
    assert (v / d) * d == k * d + q * d;
    assert k * d == r - v % d;
    MulBound(k, d);
  }

  lemma Smaller(m: nat, b: nat)
    requires b >= 2
    ensures m / b * b <= m && (m > 0 ==> m / b < m)
  {
    var q := m / b;
    assert m == q * b + m % b && q * b == q * (b - 2) + q * 2 && q * (b - 2) >= 0;
  }

  lemma DivBounds(n: nat, b: nat)
    requires b > 0
    ensures if n < b then n / b == 0 && n % b == n else n / b >= 1
  {
    var q, r := n / b, n % b;
    var k := q * b;
    assert n == k + r;
    if q >= 1 {
      assert k == (q - 1) * b + b && (q - 1) * b >= 0;
    }
  }
}
