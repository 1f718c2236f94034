/** Fixed-width time texts, and why comparing them as text compares the times. */
module TimeText {
  import opened IntegerText

  const DIGITS := "0123456789"

  /** n in decimal with w digits, zeros in front. */
  function Pad(n: nat, w: nat): (s: string)
    ensures |s| == w
  {
    if w == 0 then "" else Pad(n / 10, w - 1) + [DIGITS[n % 10]]
  }

  function Pow10(w: nat): nat
  {
    if w == 0 then 1 else 10 * Pow10(w - 1)
  }

  /** a comes before b as text, byte by byte. */
  predicate Less(a: string, b: string)
  {
    b != "" && (a == "" || a[0] < b[0] || (a[0] == b[0] && Less(a[1..], b[1..])))
  }

  /** The first character that differs decides; a text comes before its continuations. */
  lemma {:induction false} LessAt(a: string, b: string, k: nat)
    requires k <= |a| && k <= |b| && a[..k] == b[..k]
    requires k < |a| && k < |b| ==> a[k] != b[k]
    ensures Less(a, b) <==> k < |b| && (k == |a| || a[k] < b[k])
  {
    if k > 0 {
      assert a[0] == a[..k][0] == b[..k][0] == b[0];
      assert a[1..][..k - 1] == a[..k][1..] && b[1..][..k - 1] == b[..k][1..];
      LessAt(a[1..], b[1..], k - 1);
    }
  }

  lemma {:induction false} LessSum(a: string, b: string, x: string, y: string)
    requires |a| == |b|
    ensures Less(a + x, b + y) <==> Less(a, b) || (a == b && Less(x, y))
  {
    if a == "" {
      assert a + x == x && b + y == y;
    } else {
      assert (a + x)[1..] == a[1..] + x && (b + y)[1..] == b[1..] + y;
      LessSum(a[1..], b[1..], x, y);
      assert a == [a[0]] + a[1..] && b == [b[0]] + b[1..];
    }
  }

  lemma DigitOrder(x: nat, y: nat)
    requires x < 10 && y < 10
    ensures Less([DIGITS[x]], [DIGITS[y]]) <==> x < y
    ensures DIGITS[x] == DIGITS[y] <==> x == y
  {
    assert [DIGITS[x]][1..] == "" && [DIGITS[y]][1..] == "";
  }

  /** Padded numbers compare as text as they do as numbers. */
  lemma {:induction false} PadOrder(a: nat, b: nat, w: nat)
    requires a < Pow10(w) && b < Pow10(w)
    ensures Less(Pad(a, w), Pad(b, w)) <==> a < b
    ensures Pad(a, w) == Pad(b, w) <==> a == b
  {
    if w > 0 {
      var p, q := Pad(a / 10, w - 1), Pad(b / 10, w - 1);
      var x, y := [DIGITS[a % 10]], [DIGITS[b % 10]];
      PadOrder(a / 10, b / 10, w - 1);
      LessSum(p, q, x, y);
      DigitOrder(a % 10, b % 10);
      assert p + x == q + y ==> p == (p + x)[..w - 1] == (q + y)[..w - 1] == q && x[0] == (p + x)[w - 1] == (q + y)[w - 1];
    }
  }

  // ---- several fields

  /** One field of a format: its width and the text behind it. */
  datatype Field = Field(width: nat, after: string)

  predicate FitsFormat(vs: seq<nat>, fs: seq<Field>)
  {
    |vs| == |fs| && forall i :: 0 <= i < |vs| ==> vs[i] < Pow10(fs[i].width)
  }

  function Print(vs: seq<nat>, fs: seq<Field>): string
    requires |vs| == |fs|
  {
    if vs == [] then "" else Pad(vs[0], fs[0].width) + fs[0].after + Print(vs[1..], fs[1..])
  }

  /** a comes before b, the first field that differs deciding. */
  predicate Before(a: seq<nat>, b: seq<nat>)
    requires |a| == |b|
  {
    a != [] && (a[0] < b[0] || (a[0] == b[0] && Before(a[1..], b[1..])))
  }

  lemma {:induction false} BeforeAt(a: seq<nat>, b: seq<nat>, k: nat)
    requires |a| == |b| && k < |a| && a[..k] == b[..k] && a[k] != b[k]
    ensures Before(a, b) <==> a[k] < b[k]
  {
    if k > 0 {
      assert a[0] == a[..k][0] == b[..k][0] == b[0];
      assert a[1..][..k - 1] == a[..k][1..] && b[1..][..k - 1] == b[..k][1..];
      BeforeAt(a[1..], b[1..], k - 1);
    }
  }

  /** Texts of one format compare as their fields do. */
  lemma {:induction false} PrintOrder(a: seq<nat>, b: seq<nat>, fs: seq<Field>)
    requires FitsFormat(a, fs) && FitsFormat(b, fs)
    ensures Less(Print(a, fs), Print(b, fs)) <==> Before(a, b)
    decreases |fs|
  {
    if fs != [] {
      var p, q, x, y := Pad(a[0], fs[0].width), Pad(b[0], fs[0].width), Print(a[1..], fs[1..]), Print(b[1..], fs[1..]);
      PadOrder(a[0], b[0], fs[0].width);
      LessSum(p, q, fs[0].after + x, fs[0].after + y);
      NotLess(fs[0].after);
      LessSum(fs[0].after, fs[0].after, x, y);
      assert p + fs[0].after + x == p + (fs[0].after + x) && q + fs[0].after + y == q + (fs[0].after + y);
      PrintOrder(a[1..], b[1..], fs[1..]);
    }
  }

  lemma {:induction false} NotLess(a: string)
    ensures !Less(a, a)
  {
    if a != "" {
      NotLess(a[1..]);
    }
  }

  // ---- the server's time text

  /** yyyy-mm-dd hh:mm:ss.mmm */
  const SVTIME := [Field(4, "-"), Field(2, "-"), Field(2, " "), Field(2, ":"), Field(2, ":"), Field(2, "."), Field(3, "")]

  /** A calendar: year, month, day, hour, minute and second of every second. */
  ghost predicate Calendar(cal: int -> seq<nat>)
  {
    forall s :: |cal(s)| == 6 && FitsFormat(cal(s) + [0], SVTIME)
  }

  /** The calendar advances with time, within the given seconds. */
  ghost predicate Advances(cal: int -> seq<nat>, low: int, high: int)
    requires Calendar(cal)
  {
    forall s, t :: low <= s < t <= high ==> Before(cal(s), cal(t))
  }

  /** timeval_to_svtime_string */
  function Stamp(cal: int -> seq<nat>, sec: int, ms: nat): string
    requires |cal(sec)| == 6
  {
    Print(cal(sec) + [ms], SVTIME)
  }

  predicate Earlier(s: int, ms: nat, t: int, mt: nat)
  {
    s < t || (s == t && ms < mt)
  }

  /** The clock of one day is such a calendar. */
  lemma OneDay(cal: int -> seq<nat>)
    requires forall s :: cal(s) == [2014, 9, 1, s / 3600 % 24, s / 60 % 60, s % 60]
    ensures Calendar(cal) && Advances(cal, 0, 86399)
  {
    CalendarIff(cal);
    hide Before, FitsFormat;
    forall s, t | 0 <= s < t <= 86399
      ensures Before(cal(s), cal(t))
    {
      TimeOfDay(s);
      TimeOfDay(t);
      ClockOrder(s / 3600, s / 60 % 60, s % 60, t / 3600, t / 60 % 60, t % 60);
    }
  }

  lemma TimeOfDay(s: nat)
    requires s < 86400
    ensures s / 3600 % 24 == s / 3600 && s == 3600 * (s / 3600) + 60 * (s / 60 % 60) + s % 60
  {
    assert s / 60 / 60 == s / 3600;
  }

  lemma ClockOrder(h: nat, m: nat, s: nat, i: nat, n: nat, t: nat)
    requires m < 60 && s < 60 && n < 60 && t < 60
    requires 3600 * h + 60 * m + s < 3600 * i + 60 * n + t
    ensures Before([2014, 9, 1, h, m, s], [2014, 9, 1, i, n, t])
  {
    hide Before;
    var a, b: seq<nat> := [2014, 9, 1, h, m, s], [2014, 9, 1, i, n, t];
    BeforeAt(a, b, if h != i then 3 else if m != n then 4 else 5);
  }

  lemma CalendarIff(cal: int -> seq<nat>)
    ensures Calendar(cal) <==> forall s :: |cal(s)| == 6 && cal(s)[0] < 10000 && forall i :: 0 < i < 6 ==> cal(s)[i] < 100
  {
    PowersOf10();
    forall s | |cal(s)| == 6
      ensures FitsFormat(cal(s) + [0], SVTIME) <==> cal(s)[0] < 10000 && forall i :: 0 < i < 6 ==> cal(s)[i] < 100
    {
      SixFit(cal(s));
    }
  }

  lemma SixFit(vs: seq<nat>)
    requires |vs| == 6
    ensures FitsFormat(vs + [0], SVTIME) <==> vs[0] < 10000 && forall i :: 0 < i < 6 ==> vs[i] < 100
  {
    PowersOf10();
    var all := vs + [0];
    assert all[0] == vs[0] && all[1] == vs[1] && all[2] == vs[2] && all[3] == vs[3] && all[4] == vs[4] && all[5] == vs[5];
    if FitsFormat(all, SVTIME) {
      assert all[0] < Pow10(SVTIME[0].width) && all[1] < Pow10(SVTIME[1].width) && all[2] < Pow10(SVTIME[2].width);
      assert all[3] < Pow10(SVTIME[3].width) && all[4] < Pow10(SVTIME[4].width) && all[5] < Pow10(SVTIME[5].width);
    }
  }

  lemma PowersOf10()
    ensures Pow10(2) == 100 && Pow10(3) == 1000 && Pow10(4) == 10000
  {
    assert Pow10(1) == 10;
    assert Pow10(2) == 10 * Pow10(1);
    assert Pow10(3) == 10 * Pow10(2);
  }

  /** Time texts compare as the moments do. */
  lemma StampOrder(cal: int -> seq<nat>, low: int, high: int, s: int, ms: nat, t: int, mt: nat)
    requires Calendar(cal) && Advances(cal, low, high)
    requires low <= s <= high && low <= t <= high && ms < 1000 && mt < 1000
    ensures Less(Stamp(cal, s, ms), Stamp(cal, t, mt)) <==> Earlier(s, ms, t, mt)
  {
    hide Print, Less, Before;
    var a, b := cal(s) + [ms], cal(t) + [mt];
    Widths(cal(s), ms);
    Widths(cal(t), mt);
    PrintOrder(a, b, SVTIME);
    BeforeSum(cal(s), cal(t), [ms], [mt]);
    BeforeOne(ms, mt);
    if s != t {
      assert Before(cal(s), cal(t)) || Before(cal(t), cal(s));
      OneWay(cal(s), cal(t));
    } else {
      OneWay(cal(s), cal(s));
    }
  }

  lemma Widths(vs: seq<nat>, ms: nat)
    requires |vs| == 6 && FitsFormat(vs + [0], SVTIME) && ms < 1000
    ensures FitsFormat(vs + [ms], SVTIME)
  {
    PowersOf10();
    forall i | 0 <= i < 6
      ensures (vs + [ms])[i] < Pow10(SVTIME[i].width)
    {
      assert (vs + [0])[i] == vs[i];
    }
  }

  lemma BeforeOne(x: nat, y: nat)
    ensures Before([x], [y]) <==> x < y
  {
    assert [x][1..] == [] && [y][1..] == [];
  }

  lemma {:induction false} BeforeSum(a: seq<nat>, b: seq<nat>, x: seq<nat>, y: seq<nat>)
    requires |a| == |b| && |x| == |y|
    ensures Before(a + x, b + y) <==> Before(a, b) || (a == b && Before(x, y))
  {
    if a == [] {
      assert a + x == x && b + y == y;
    } else {
      assert (a + x)[1..] == a[1..] + x && (b + y)[1..] == b[1..] + y;
      BeforeSum(a[1..], b[1..], x, y);
      assert a == [a[0]] + a[1..] && b == [b[0]] + b[1..];
    }
  }

  lemma {:induction false} OneWay(a: seq<nat>, b: seq<nat>)
    requires |a| == |b|
    ensures !(Before(a, b) && Before(b, a)) && (a == b ==> !Before(a, b))
  {
    if a != [] {
      OneWay(a[1..], b[1..]);
    }
  }

  // ---- what the texts say

  /** The digits denote the number. */
  lemma {:induction false} PadReads(n: nat, w: nat, x: string)
    requires n < Pow10(w)
    ensures Digits(Pad(n, w) + x, 0) == Digits(x, n)
    decreases w
  {
    if w == 0 {
      assert Pad(n, 0) + x == x;
    } else {
      var d := [DIGITS[n % 10]];
      assert Pad(n, w) + x == Pad(n / 10, w - 1) + (d + x);
      PadReads(n / 10, w - 1, d + x);
      DigitIsOne(n % 10);
      assert (d + x)[1..] == x;
    }
  }

  lemma DigitIsOne(d: nat)
    requires d < 10
    ensures IsDigit(DIGITS[d]) && DIGITS[d] as int - '0' as int == d
  {
  }

  lemma PadWhole(n: nat, w: nat)
    requires n < Pow10(w)
    ensures Digits(Pad(n, w), 0) == n
  {
    PadReads(n, w, "");
    assert Pad(n, w) + "" == Pad(n, w);
  }

  /** The seven fields, one behind the other. */
  lemma PrintFields(vs: seq<nat>)
    requires |vs| == 7
    ensures Print(vs, SVTIME) == Pad(vs[0], 4) + "-" + Pad(vs[1], 2) + "-" + Pad(vs[2], 2) + " " + Pad(vs[3], 2) + ":"
                               + Pad(vs[4], 2) + ":" + Pad(vs[5], 2) + "." + Pad(vs[6], 3)
  {
    hide Pad, Print;
    PrintStep(vs, SVTIME);
    PrintStep(vs[1..], SVTIME[1..]);
    PrintStep(vs[2..], SVTIME[2..]);
    PrintStep(vs[3..], SVTIME[3..]);
    PrintStep(vs[4..], SVTIME[4..]);
    PrintStep(vs[5..], SVTIME[5..]);
    PrintStep(vs[6..], SVTIME[6..]);
    PrintNone(vs[7..], SVTIME[7..]);
  }

  lemma PrintNone(vs: seq<nat>, fs: seq<Field>)
    requires |vs| == |fs| == 0
    ensures Print(vs, fs) == ""
  {
  }

  lemma PrintStep(vs: seq<nat>, fs: seq<Field>)
    requires |vs| == |fs| > 0
    ensures Print(vs, fs) == Pad(vs[0], fs[0].width) + fs[0].after + Print(vs[1..], fs[1..])
  {
  }

  lemma PadStep(n: nat, w: nat)
    requires w > 0
    ensures Pad(n, w) == Pad(n / 10, w - 1) + [DIGITS[n % 10]] && Pad(n, 0) == ""
  {
  }

  lemma PadTwo(n: nat)
    requires n < 100
    ensures Pad(n, 2) == [DIGITS[n / 10], DIGITS[n % 10]]
  {
    hide Pad;
    PadStep(n, 2);
    PadStep(n / 10, 1);
    PadStep(n / 100, 1);
  }

  lemma PrintedYear()
    ensures Pad(2014, 4) == "2014" && Pad(750, 3) == "750"
  {
    hide Pad;
    PadTwo(20);
    PadStep(201, 3);
    PadStep(2014, 4);
    PadTwo(75);
    PadStep(750, 3);
  }

  /** A moment as it is printed. */
  lemma PrintedMoment()
    ensures Print([2014, 4, 3, 7, 55, 7, 750], SVTIME) == "2014-04-03 07:55:07.750"
  {
    hide Pad, Print;
    PrintFields([2014, 4, 3, 7, 55, 7, 750]);
    PrintedYear();
    PadTwo(4);
    PadTwo(3);
    PadTwo(7);
    PadTwo(55);
    assert Pad(4, 2) == "04" && Pad(3, 2) == "03" && Pad(7, 2) == "07" && Pad(55, 2) == "55";
  }

  /** The text has 23 characters, and its parts read as the fields of the calendar and the milliseconds. */
  lemma StampReads(cal: int -> seq<nat>, sec: int, ms: nat)
    requires Calendar(cal) && ms < 1000
    ensures var t, c := Stamp(cal, sec, ms), cal(sec);
            && |t| == 23 && t[4] == t[7] == '-' && t[10] == ' ' && t[13] == t[16] == ':' && t[19] == '.'
            && Digits(t[..4], 0) == c[0] && Digits(t[5..7], 0) == c[1] && Digits(t[8..10], 0) == c[2]
            && Digits(t[11..13], 0) == c[3] && Digits(t[14..16], 0) == c[4] && Digits(t[17..19], 0) == c[5]
            && Digits(t[20..], 0) == ms
  {
    var vs := cal(sec) + [ms];
    Widths(cal(sec), ms);
    PrintFields(vs);
    hide Pad, Print, Digits, Pow10;
    assert SVTIME[0].width == 4 && SVTIME[1].width == 2 && SVTIME[2].width == 2 && SVTIME[3].width == 2 && SVTIME[4].width == 2
        && SVTIME[5].width == 2 && SVTIME[6].width == 3;
    PadWhole(vs[0], 4);
    PadWhole(vs[1], 2);
    PadWhole(vs[2], 2);
    PadWhole(vs[3], 2);
    PadWhole(vs[4], 2);
    PadWhole(vs[5], 2);
    PadWhole(vs[6], 3);
    FieldsOfText(Stamp(cal, sec, ms), Pad(vs[0], 4), Pad(vs[1], 2), Pad(vs[2], 2), Pad(vs[3], 2), Pad(vs[4], 2), Pad(vs[5], 2),
                 Pad(vs[6], 3));
  }

  lemma FieldsOfText(t: string, a: string, b: string, c: string, d: string, e: string, f: string, g: string)
    requires t == a + "-" + b + "-" + c + " " + d + ":" + e + ":" + f + "." + g
    requires |a| == 4 && |b| == |c| == |d| == |e| == |f| == 2 && |g| == 3
    ensures |t| == 23 && t[4] == t[7] == '-' && t[10] == ' ' && t[13] == t[16] == ':' && t[19] == '.'
    ensures t[..4] == a && t[5..7] == b && t[8..10] == c && t[11..13] == d && t[14..16] == e && t[17..19] == f && t[20..] == g
  {
    var u := a + "-" + b + "-" + c + " " + d + ":" + e + ":" + f;
    assert |u| == 19 && t == u + "." + g + "";
    Part(t, u + ".", g, "");
    assert t[..19] == u;
  }

  lemma Part(t: string, x: string, p: string, y: string)
    requires t == x + p + y
    ensures |x| + |p| <= |t| && t[|x|..|x| + |p|] == p && (y != "" ==> t[|x| + |p|] == y[0])
  {
  }
}
