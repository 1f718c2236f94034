/** Bytes, and the big-endian integers that every file and message of the server is made of. */
module Bytes {
  import opened Arithmetic

  type byte = b: int | 0 <= b < 0x100

  type uint16 = n: int | 0 <= n < 0x1_0000

  type uint32 = n: int | 0 <= n < 0x1_0000_0000

  type uint64 = n: int | 0 <= n < 0x1_0000_0000_0000_0000

  function Pow256(n: nat): (p: nat)
    ensures p > 0
  {
    if n == 0 then 1 else 256 * Pow256(n - 1)
  }

  /** The low `n` bytes of `v` in two's complement, most significant first. */
  function BigEndian(v: int, n: nat): (s: seq<byte>)
    ensures |s| == n
    decreases n
  {
    if n == 0 then [] else BigEndian(v / 256, n - 1) + [v % 256]
  }

  /** The number that a byte string denotes, most significant byte first. */
  function Value(s: seq<byte>): (v: nat)
  {
    if |s| == 0 then 0 else 256 * Value(s[..|s| - 1]) + s[|s| - 1]
  }

  /** What an `n`-byte unsigned number becomes when read as a signed one. */
  function Signed(v: int, n: nat): int
  {
    if 2 * v < Pow256(n) then v else v - Pow256(n)
  }

  lemma PowValues()
    ensures Pow256(1) == 0x100
    ensures Pow256(2) == 0x1_0000
    ensures Pow256(4) == 0x1_0000_0000
    ensures Pow256(8) == 0x1_0000_0000_0000_0000
  {
    assert Pow256(2) == 256 * Pow256(1);
    assert Pow256(3) == 256 * Pow256(2);
    assert Pow256(4) == 256 * Pow256(3);
    assert Pow256(5) == 256 * Pow256(4);
    assert Pow256(6) == 256 * Pow256(5);
    assert Pow256(7) == 256 * Pow256(6);
    assert Pow256(8) == 256 * Pow256(7);
  }

  lemma DivMod(v: int, p: int)
    requires p > 0
    ensures v / 256 / p == v / (256 * p)
    ensures v % (256 * p) == 256 * (v / 256 % p) + v % 256
  {
    var q, r := v / 256 / p, v / 256 % p;
    assert v / 256 == q * p + r;
    assert v == 256 * (q * p + r) + v % 256;
    assert 256 * (q * p) == q * (256 * p);
    Unique(v, 256 * p, q, 256 * r + v % 256);
  }

  lemma {:induction false} ValueOfBigEndian(v: int, n: nat)
    ensures Value(BigEndian(v, n)) == v % Pow256(n)
    decreases n
  {
    if n > 0 {
      ValueOfBigEndian(v / 256, n - 1);
      assert BigEndian(v, n)[..n - 1] == BigEndian(v / 256, n - 1);
      DivMod(v, Pow256(n - 1));
    }
  }

  lemma {:induction false} BigEndianOfValue(s: seq<byte>)
    ensures BigEndian(Value(s), |s|) == s
    ensures Value(s) < Pow256(|s|)
  {
    if |s| > 0 {
      BigEndianOfValue(s[..|s| - 1]);
      assert s == s[..|s| - 1] + [s[|s| - 1]];
    }
  }

  lemma {:induction false} BigEndianAt(v: int, n: nat, i: nat)
    requires i < n
    ensures BigEndian(v, n)[i] == v / Pow256(n - 1 - i) % 256
    decreases n
  {
    if i < n - 1 {
      BigEndianAt(v / 256, n - 1, i);
      var p := Pow256(n - 2 - i);
      assert Pow256(n - 1 - i) == 256 * p;
      DivMod(v, p);
    } else {
      assert Pow256(n - 1 - i) == 1;
    }
  }

  lemma FourBytes(v: int)
    requires 0 <= v < 0x1_0000_0000
    ensures BigEndian(v, 4) == [v / 0x100_0000, v / 0x1_0000 % 0x100, v / 0x100 % 0x100, v % 0x100]
  {
    PowValues();
    assert Pow256(3) == 256 * Pow256(2) && Pow256(0) == 1;
    hide Pow256, BigEndian;
    BigEndianAt(v, 4, 0);
    BigEndianAt(v, 4, 1);
    BigEndianAt(v, 4, 2);
    BigEndianAt(v, 4, 3);
  }

  /** Within its range, an unsigned number survives encoding and decoding. */
  lemma UnsignedRoundTrip(v: int, n: nat)
    requires 0 <= v < Pow256(n)
    ensures Value(BigEndian(v, n)) == v
  {
    ValueOfBigEndian(v, n);
    Unique(v, Pow256(n), 0, v);
  }

  /** Within its range, a signed number survives encoding and decoding. */
  lemma SignedRoundTrip(v: int, n: nat)
    requires -(Pow256(n) as int) <= 2 * v < Pow256(n)
    ensures Signed(Value(BigEndian(v, n)), n) == v
  {
    ValueOfBigEndian(v, n);
    if v >= 0 {
      Unique(v, Pow256(n), 0, v);
    } else {
      Unique(v, Pow256(n), -1, v + Pow256(n));
    }
  }
}
