/** Integers as text, in any base from 2 to 36, and back. */
module IntegerText {
  import opened Arithmetic
  import opened CString

  type int64 = n: int | -0x8000_0000_0000_0000 <= n < 0x8000_0000_0000_0000

  // ---- reading decimal numbers

  predicate IsDigit(c: char)
  {
    '0' <= c <= '9'
  }

  predicate IsWhite(c: char)
  {
    c == ' ' || '\t' <= c <= '\r'
  }

  /** The digits at the front of s, behind those that make `n`. */
  function Digits(s: string, n: nat): nat
  {
    if s != "" && IsDigit(s[0]) then Digits(s[1..], 10 * n + (s[0] as int - '0' as int)) else n
  }

  /** atoi: white space, a sign, digits. */
  function Atoi(s: string): int
  {
    if s == "" then 0
    else if IsWhite(s[0]) then Atoi(s[1..])
    else if s[0] == '-' then -(Digits(s[1..], 0) as int)
    else if s[0] == '+' then Digits(s[1..], 0)
    else Digits(s, 0)
  }

  lemma Stops(x: string, n: nat)
    requires x == "" || !IsDigit(x[0])
    ensures Digits(x, n) == n
  {
  }

  // ---- writing in any base

  const TABLE := "zyxwvutsrqponmlkjihgfedcba987654321" + "0123456789abcdefghijklmnopqrstuvwxyz"

  predicate Base(b: int)
  {
    2 <= b <= 36
  }

  /** The digit of value d. */
  function Digit(d: nat): (c: char)
    requires d < 36
    ensures c != '\0' && c != '-'
  {
    if d < 10 then ('0' as int + d) as char else ('a' as int + d - 10) as char
  }

  lemma DigitIs(d: nat)
    requires d < 36
    ensures Digit(d) == "0123456789abcdefghijklmnopqrstuvwxyz"[d]
  {
    assert d == 0 || d == 1 || d == 2 || d == 3 || d == 4 || d == 5 || d == 6 || d == 7 || d == 8 || d == 9 || d == 10
        || d == 11 || d == 12 || d == 13 || d == 14 || d == 15 || d == 16 || d == 17 || d == 18 || d == 19 || d == 20
        || d == 21 || d == 22 || d == 23 || d == 24 || d == 25 || d == 26 || d == 27 || d == 28 || d == 29 || d == 30
        || d == 31 || d == 32 || d == 33 || d == 34 || d == 35;
  }

  /** The source's table is indexed with what a division leaves, which has the sign of the dividend. */
  lemma TableDigits(d: nat)
    requires d < 36
    ensures |TABLE| == 71 && TABLE[35 + d] == TABLE[35 - d] == Digit(d)
  {
    assert d == 0 || d == 1 || d == 2 || d == 3 || d == 4 || d == 5 || d == 6 || d == 7 || d == 8 || d == 9 || d == 10
        || d == 11 || d == 12 || d == 13 || d == 14 || d == 15 || d == 16 || d == 17 || d == 18 || d == 19 || d == 20
        || d == 21 || d == 22 || d == 23 || d == 24 || d == 25 || d == 26 || d == 27 || d == 28 || d == 29 || d == 30
        || d == 31 || d == 32 || d == 33 || d == 34 || d == 35;
  }

  /** C's division, which rounds towards zero. */
  function Quotient(a: int, b: int): int
    requires b > 0
  {
    if a >= 0 then a / b else -((-a) / b)
  }

  function Magnitude(n: int): nat
  {
    if n < 0 then -n else n
  }

  lemma QuotientMeans(a: int, b: int)
    requires b >= 2
    ensures Magnitude(Quotient(a, b)) == Magnitude(a) / b
    ensures Magnitude(a - Quotient(a, b) * b) == Magnitude(a) % b
    ensures -(Magnitude(a) as int) <= Quotient(a, b) * b <= Magnitude(a)
    ensures a >= 0 ==> a - Quotient(a, b) * b >= 0
    ensures a <= 0 ==> a - Quotient(a, b) * b <= 0
    ensures (a >= 0 ==> Quotient(a, b) >= 0) && (a <= 0 ==> Quotient(a, b) <= 0)
    ensures a != 0 ==> Magnitude(Quotient(a, b)) < Magnitude(a)
  {
    hide Quotient;
    QuotientOf(Magnitude(a), b);
    QuotientSign(a, b);
  }

  lemma QuotientOf(m: nat, b: int)
    requires b >= 2
    ensures Quotient(m, b) == m / b && 0 <= m / b * b <= m && m - m / b * b == m % b && (m > 0 ==> m / b < m)
  {
    Smaller(m, b);
    Divided(m, b);
  }

  lemma Divided(m: nat, b: int)
    requires b > 0
    ensures m - m / b * b == m % b && m / b >= 0 && m / b * b >= 0
  {
    var k := m / b * b;
    assert m == k + m % b;
  }

  lemma QuotientSign(a: int, b: int)
    requires b >= 2
    ensures Quotient(a, b) == if a < 0 then -Quotient(-a, b) else Quotient(a, b)
    ensures a < 0 ==> Quotient(a, b) * b == -(Quotient(-a, b) * b)
  {
    if a < 0 {
      var q := Quotient(-a, b);
      assert (-q) * b == -(q * b);
    }
  }

  /** The digits of n, most significant first. */
  function Unsigned(n: nat, b: nat): (s: string)
    requires Base(b)
    ensures s != ""
    decreases n
  {
    if n < b then [Digit(n)]
    else
      Smaller(n, b);
      Unsigned(n / b, b) + [Digit(n % b)]
  }

  /** The text of an integer. */
  function Text(v: int, b: nat): string
    requires Base(b)
  {
    (if v < 0 then "-" else "") + Unsigned(Magnitude(v), b)
  }

  // ---- reading it back

  function DigitValue(c: char): int
  {
    if '0' <= c <= '9' then c as int - '0' as int
    else if 'a' <= c <= 'z' then c as int - 'a' as int + 10
    else -1
  }

  function ReadUnsigned(s: string, b: nat): int
  {
    if s == "" then 0 else ReadUnsigned(s[..|s| - 1], b) * b + DigitValue(s[|s| - 1])
  }

  function Read(s: string, b: nat): int
  {
    if s != "" && s[0] == '-' then -ReadUnsigned(s[1..], b) else ReadUnsigned(s, b)
  }

  lemma DigitReads(d: nat)
    requires d < 36
    ensures DigitValue(Digit(d)) == d
  {
  }

  lemma ReadMore(s: string, c: char, b: nat)
    ensures ReadUnsigned(s + [c], b) == ReadUnsigned(s, b) * b + DigitValue(c)
  {
    assert (s + [c])[..|s|] == s;
  }

  lemma {:induction false} UnsignedRoundTrip(n: nat, b: nat)
    requires Base(b)
    ensures ReadUnsigned(Unsigned(n, b), b) == n
    ensures '-' !in Unsigned(n, b) && '\0' !in Unsigned(n, b)
    decreases n
  {
    hide ReadUnsigned, DigitValue, Digit;
    if n < b {
      DigitReads(n);
      ReadOne(Digit(n), b);
    } else {
      Smaller(n, b);
      UnsignedRoundTrip(n / b, b);
      DigitReads(n % b);
      ReadMore(Unsigned(n / b, b), Digit(n % b), b);
    }
  }

  lemma ReadOne(c: char, b: nat)
    ensures ReadUnsigned([c], b) == DigitValue(c)
  {
    assert [c][..0] == "" && ReadUnsigned("", b) * b == 0;
  }

  /** No text begins with a zero but that of 0. */
  lemma {:induction false} NoLeadingZero(n: nat, b: nat)
    requires Base(b)
    ensures Unsigned(n, b)[0] == '0' <==> n == 0
    ensures n == 0 ==> Unsigned(n, b) == "0"
    decreases n
  {
    if n >= b {
      Smaller(n, b);
      DivBounds(n, b);
      NoLeadingZero(n / b, b);
    }
  }

  /** Texts as they are printed. */
  lemma PrintedTexts()
    ensures Text(255, 16) == "ff" && Text(-8, 2) == "-1000" && Text(1230, 10) == "1230" && Text(35, 36) == "z" && Text(0, 7) == "0"
  {
    assert Unsigned(15, 16) == "f" && Unsigned(255, 16) == "ff";
    assert Unsigned(1, 2) == "1" && Unsigned(2, 2) == "10" && Unsigned(4, 2) == "100" && Unsigned(8, 2) == "1000";
    assert Unsigned(1, 10) == "1" && Unsigned(12, 10) == "12" && Unsigned(123, 10) == "123" && Unsigned(1230, 10) == "1230";
  }

  /** Every integer, the least one of its width included, is read back from its text in every base. */
  lemma TextRoundTrip(v: int, b: nat)
    requires Base(b)
    ensures Read(Text(v, b), b) == v
  {
    var u := Unsigned(Magnitude(v), b);
    UnsignedRoundTrip(Magnitude(v), b);
    if v < 0 {
      assert Text(v, b)[1..] == u;
    } else {
      assert Text(v, b) == u;
      assert u[0] in u;
    }
  }

  // ---- the loops

  function Reversed<T>(s: seq<T>): (r: seq<T>)
    ensures |r| == |s| && forall i :: 0 <= i < |s| ==> r[i] == s[|s| - 1 - i]
  {
    if s == [] then [] else [s[|s| - 1]] + Reversed(s[..|s| - 1])
  }

  /** The second loop: the first n characters are turned round in place. */
  method Reverse(buf: array<char>, n: nat)
    requires n <= buf.Length
    modifies buf
    ensures buf[..n] == Reversed(old(buf[..n])) && buf[n..] == old(buf[n..])
  {
    hide Reversed;
    var left, right := 0, n - 1;
    while left < right
      invariant 0 <= left && right == n - 1 - left && left <= right + 2
      invariant forall i :: 0 <= i < n && !(left <= i <= right) ==> buf[i] == old(buf[n - 1 - i])
      invariant forall i :: left <= i <= right ==> buf[i] == old(buf[i])
      invariant buf[n..] == old(buf[n..])
    {
      var c := buf[right];
      buf[right] := buf[left];
      buf[left] := c;
      left, right := left + 1, right - 1;
    }
    assert forall i :: 0 <= i < n ==> buf[..n][i] == old(buf[..n])[n - 1 - i];
  }

  lemma UnsignedStep(n: nat, b: nat)
    requires Base(b)
    ensures n / b == 0 ==> Unsigned(n, b) == [Digit(n % b)]
    ensures n / b > 0 ==> Unsigned(n, b) == Unsigned(n / b, b) + [Digit(n % b)]
  {
    hide Digit;
    DivBounds(n, b);
  }

  /** One digit: what the table gives for the remainder, and what is left to write. */
  method Step(tmp: int64, b: nat) returns (value: int64, c: char)
    requires Base(b)
    ensures (tmp >= 0 ==> value >= 0) && (tmp <= 0 ==> value <= 0)
    ensures Magnitude(value) < Magnitude(tmp) || value == tmp == 0
    ensures Unsigned(Magnitude(tmp), b) == (if value == 0 then [] else Unsigned(Magnitude(value), b)) + [c]
  {
    hide Unsigned, Digit;
    QuotientMeans(tmp, b);
    UnsignedStep(Magnitude(tmp), b);
    value := Quotient(tmp, b);
    var rest: int64 := tmp - value * b;
    TableDigits(Magnitude(rest));
    c := TABLE[35 + rest];
  }

  /** The first loop: the digits of `v`, least significant first. */
  method LowDigits(v: int64, buf: array<char>, b: nat) returns (p: nat, tmp: int64)
    requires Base(b) && |Unsigned(Magnitude(v), b)| <= buf.Length
    modifies buf
    ensures p == |Unsigned(Magnitude(v), b)| && (tmp < 0 <==> v < 0)
    ensures forall i :: 0 <= i < p ==> buf[i] == Unsigned(Magnitude(v), b)[p - 1 - i]
  {
    hide Unsigned, Magnitude;
    var value: int64 := v;
    p, tmp := 0, v;
    var more := true;
    ghost var all := Unsigned(Magnitude(v), b);
    while more
      invariant p <= |all|
      invariant all == (if more then Unsigned(Magnitude(value), b) else "") + all[|all| - p..]
      invariant (v >= 0 ==> value >= 0 && tmp >= 0) && (v <= 0 ==> value <= 0 && tmp <= 0)
      invariant more ==> if p == 0 then value == v else value != 0
      invariant !more ==> tmp != 0 || v == 0
      invariant forall i :: 0 <= i < p ==> buf[i] == all[|all| - 1 - i]
      decreases Magnitude(value), more
    {
      tmp := value;
      ghost var back, ahead := all[|all| - p..], Unsigned(Magnitude(value), b);
      var c;
      value, c := Step(tmp, b);
      buf[p] := c;
      p := p + 1;
      more := value != 0;
      Peel(all, ahead, if more then Unsigned(Magnitude(value), b) else "", c, back);
    }
  }

  /** The digits of `v`, then its sign, all in reverse. */
  method Generate(v: int64, buf: array<char>, b: nat) returns (p: nat)
    requires Base(b) && |Text(v, b)| < buf.Length
    modifies buf
    ensures p == |Text(v, b)| && Reversed(buf[..p]) == Text(v, b)
  {
    hide Unsigned, Reversed;
    var tmp;
    p, tmp := LowDigits(v, buf, b);
    if tmp < 0 {
      buf[p] := '-';
      p := p + 1;
    }
    assert Reversed(buf[..p]) == Text(v, b);
  }

  lemma Peel(all: string, ahead: string, left: string, c: char, back: string)
    requires all == ahead + back && ahead == left + [c]
    ensures all == left + all[|all| - |back| - 1..] && all[|all| - 1 - |back|] == c
  {
  }

  /** itoa and lltoa: the text of the value, or the empty text for a base that is none. */
  method Lltoa(v: int64, buf: array<char>, radix: int)
    requires buf.Length > 0 && (Base(radix) ==> |Text(v, radix)| < buf.Length)
    modifies buf
    ensures Terminated(buf[..]) && CText(buf[..]) == if Base(radix) then Text(v, radix) else ""
  {
    if radix < 2 || radix > 36 {
      buf[0] := '\0';
      CTextIs(buf[..], "");
      return;
    }
    var p := Generate(v, buf, radix);
    buf[p] := '\0';
    Reverse(buf, p);
    UnsignedRoundTrip(Magnitude(v), radix);
    CTextIs(buf[..], Text(v, radix));
  }

  // ---- decimal text

  /** What sprintf writes for %d. */
  function Decimal(n: nat): string
  {
    Unsigned(n, 10)
  }

  lemma {:induction false} DigitsSum(n: nat, x: string)
    requires x == "" || !IsDigit(x[0])
    ensures Digits(Decimal(n) + x, 0) == n
    decreases n
  {
    DigitsPrefix(n, x);
    Stops(x, n);
  }

  lemma {:induction false} DigitsPrefix(n: nat, x: string)
    ensures Digits(Decimal(n) + x, 0) == Digits(x, n)
    decreases n
  {
    if n < 10 {
      assert (Decimal(n) + x)[1..] == x;
    } else {
      Smaller(n, 10);
      var y := [Digit(n % 10)] + x;
      assert Decimal(n) + x == Decimal(n / 10) + y;
      DigitsPrefix(n / 10, y);
      assert y[1..] == x;
    }
  }

  lemma {:induction false} DecimalFront(n: nat)
    ensures IsDigit(Decimal(n)[0])
    decreases n
  {
    if n >= 10 {
      Smaller(n, 10);
      DecimalFront(n / 10);
    }
  }

  /** atoi reads back what sprintf wrote, if no further digit follows. */
  lemma AtoiDecimal(n: nat, x: string)
    requires x == "" || !IsDigit(x[0])
    ensures Atoi(Decimal(n) + x) == n
  {
    DigitsSum(n, x);
    DecimalFront(n);
    assert (Decimal(n) + x)[0] == Decimal(n)[0];
  }

  /** So it does behind white space and with a sign. */
  lemma {:induction false} AtoiText(w: string, v: int, x: string)
    requires (forall c <- w :: c in " \t\n\U{000B}\U{000C}\r") && (x == "" || x[0] < '0' || x[0] > '9')
    ensures Atoi(w + Text(v, 10) + x) == v
    decreases |w|
  {
    if w == "" {
      AtoiSigned(v, x);
      assert "" + Text(v, 10) + x == Text(v, 10) + x;
    } else {
      var s := w + Text(v, 10) + x;
      assert w[0] in w && s[0] == w[0] && s[1..] == w[1..] + Text(v, 10) + x;
      AtoiText(w[1..], v, x);
    }
  }

  lemma AtoiSigned(v: int, x: string)
    requires x == "" || x[0] < '0' || x[0] > '9'
    ensures Atoi(Text(v, 10) + x) == v
  {
    hide Digits, Unsigned, Atoi, Decimal;
    var n := Magnitude(v);
    TextOf(v);
    if v < 0 {
      DigitsSum(n, x);
      AtoiMinus(Decimal(n) + x);
      assert Text(v, 10) + x == "-" + (Decimal(n) + x);
    } else {
      AtoiDecimal(n, x);
    }
  }

  lemma TextOf(v: int)
    ensures Text(v, 10) == if v < 0 then "-" + Decimal(Magnitude(v)) else Decimal(Magnitude(v))
  {
    assert "" + Decimal(Magnitude(v)) == Decimal(Magnitude(v));
  }

  lemma AtoiMinus(t: string)
    ensures Atoi("-" + t) == -(Digits(t, 0) as int)
  {
    assert ("-" + t)[1..] == t;
  }

  /** A text that begins with anything else is taken for 0. */
  lemma AtoiNone(s: string)
    requires s == "" || (s[0] !in " \t\n\U{000B}\U{000C}\r" && s[0] !in "+-0123456789")
    ensures Atoi(s) == 0
  {
    if s != "" {
      var c := s[0];
      assert !IsWhite(c) && !IsDigit(c);
    }
  }
}
