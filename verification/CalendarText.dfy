/** Reading the day lists of a calendar: days and ranges, separated by commas, with spaces anywhere. */
module CalendarText {
  import opened CString
  import opened IntegerText
  import opened Sequences

  // ---- spaces

  function IsSpace(): char -> bool
  {
    c => c == ' '
  }

  function NoSpaces(s: string): string
  {
    Kept(s, IsSpace())
  }

  /** trim_space: every space goes, wherever it stands. */
  method TrimSpace(source: string) returns (s: string)
    ensures s == NoSpaces(source) && ' ' !in s
  {
    s := source;
    var p := 0;
    hide Kept;
    KeptEmpty(IsSpace());
    while p < |s|
      invariant p <= |s| && NoSpaces(s[..p]) == s[..p]
      invariant NoSpaces(s) == NoSpaces(source)
      decreases |s| - p
    {
      var front, back := s[..p], s[p + 1..];
      assert s == front + ([s[p]] + back) && s[..p + 1] == front + [s[p]];
      KeptMore(front, IsSpace(), s[p]);
      if s[p] == ' ' {
        KeptSum(front, [s[p]] + back, IsSpace());
        KeptSum([s[p]], back, IsSpace());
        KeptSum(front, back, IsSpace());
        KeptMore([], IsSpace(), s[p]);
        assert [] + [s[p]] == [s[p]] && [] + NoSpaces(back) == NoSpaces(back);
        s := front + back;
        assert s[..p] == front;
      } else {
        p := p + 1;
      }
    }
    assert s[..p] == s;
    KeptNone(source, IsSpace());
  }

  /** Spaces in front, between and behind. */
  lemma SpacesGone()
    ensures NoSpaces(" a bc ") == "abc"
  {
    assert " a bc "[1..] == "a bc " && "a bc "[1..] == " bc " && " bc "[1..] == "bc " && "bc "[1..] == "c " && "c "[1..] == " "
        && " "[1..] == "";
    hide Kept;
    KeptFront(" a bc ", IsSpace());
    KeptFront("a bc ", IsSpace());
    KeptFront(" bc ", IsSpace());
    KeptFront("bc ", IsSpace());
    KeptFront("c ", IsSpace());
    KeptFront(" ", IsSpace());
    KeptEmpty(IsSpace());
  }

  lemma KeptFront<T>(s: seq<T>, drop: T -> bool)
    requires s != []
    ensures Kept(s, drop) == (if drop(s[0]) then [] else [s[0]]) + Kept(s[1..], drop)
  {
  }

  lemma {:induction false} KeptSum<T>(a: seq<T>, b: seq<T>, drop: T -> bool)
    ensures Kept(a + b, drop) == Kept(a, drop) + Kept(b, drop)
  {
    if a == [] {
      assert a + b == b;
    } else {
      assert (a + b)[1..] == a[1..] + b;
      KeptSum(a[1..], b, drop);
    }
  }

  // ---- numbers

  /** A number below 100 as it is written. */
  function Num(n: nat): (s: string)
    requires n < 100
    ensures |s| == Width(n)
  {
    if n < 10 then [Digit(n)] else [Digit(n / 10), Digit(n % 10)]
  }

  /** JUDE_SET: the number of characters that the source takes a number to have. */
  function Width(n: int): nat
  {
    if n < 10 then 1 else 2
  }

  lemma AtoiNum(n: nat, x: string)
    requires n < 100 && (x == "" || !IsDigit(x[0]))
    ensures Atoi(Num(n) + x) == n
  {
    var s := Num(n) + x;
    Stops(x, n);
    if n < 10 {
      assert s[0] == Digit(n) && s[1..] == x;
      hide Digit;
      assert Digits(s, 0) == Digits(s[1..], n);
    } else {
      var t := s[1..];
      assert s[0] == Digit(n / 10) && t[0] == Digit(n % 10) && t[1..] == x;
      hide Digit;
      assert Digits(t, n / 10) == Digits(t[1..], n);
      assert Digits(s, 0) == Digits(t, n / 10);
    }
  }

  // ---- lists of days

  datatype Item = Day(d: nat) | Range(first: nat, last: nat)
  {
    predicate Has(n: nat)
    {
      if Day? then n == d else first <= n <= last
    }

    predicate Within(max: nat)
    {
      if Day? then 1 <= d <= max else 1 <= first <= max && 1 <= last <= max
    }

    function Show(): string
      requires Within(31)
    {
      if Day? then Num(d) else Num(first) + "-" + Num(last)
    }
  }

  predicate AllWithin(items: seq<Item>, max: nat)
  {
    forall it <- items :: it.Within(max)
  }

  /** Which entry of a table an item marks. */
  type Hits = (Item, nat) -> bool

  predicate Marks(items: seq<Item>, hits: Hits, i: nat)
  {
    exists it <- items :: hits(it, i)
  }

  function Show(items: seq<Item>): string
    requires AllWithin(items, 31)
  {
    if items == [] then ""
    else items[0].Show() + if |items| == 1 then "" else "," + Show(items[1..])
  }

  /** What a parser that has read k items still has before it. */
  function Ahead(items: seq<Item>, k: nat, comma: bool): string
    requires k <= |items| && AllWithin(items, 31)
  {
    (if comma then "," else "") + Show(items[k..])
  }

  /** A number found at p, and where it ends. */
  lemma NumberAhead(t: string, p: nat, n: nat, x: string)
    requires n < 100 && p <= |t| && t[p..] == Num(n) + x && (x == "" || !IsDigit(x[0]))
    ensures Atoi(t[p..]) == n && p + Width(n) <= |t| && t[p + Width(n)..] == x
    ensures At(t, p + Width(n)) == if x == "" then '\0' else x[0]
  {
    AtoiNum(n, x);
    hide Atoi, Num;
    var w := Width(n);
    assert t[p + w..] == t[p..][w..] == x;
    assert x == "" || t[p + w] == x[0];
  }

  lemma ShowFirst(items: seq<Item>, k: nat)
    requires AllWithin(items, 31) && k < |items|
    ensures Ahead(items, k, false) == items[k].Show() + Ahead(items, k + 1, k + 1 < |items|)
  {
    assert items[k..][1..] == items[k + 1..];
    assert "" + Show(items[k..]) == Show(items[k..]);
  }

  /** What the parser finds at the front of a list. */
  lemma ItemAhead(t: string, p: nat, items: seq<Item>, k: nat)
    requires AllWithin(items, 31) && k < |items| && p <= |t| && t[p..] == Ahead(items, k, false)
    ensures var it := items[k];
            var n := if it.Day? then it.d else it.first;
            var q := p + Width(n);
            && Atoi(t[p..]) == n && q <= |t|
            && (it.Day? ==> t[q..] == Ahead(items, k + 1, k + 1 < |items|) && At(t, q) == if k + 1 < |items| then ',' else '\0')
            && (it.Range? ==>
                  && At(t, q) == '-' && q + 1 + Width(it.last) <= |t| && Atoi(t[q + 1..]) == it.last
                  && t[q + 1 + Width(it.last)..] == Ahead(items, k + 1, k + 1 < |items|))
  {
    hide Num, Digits, Atoi, Show, Ahead;
    assert items[k].Within(31);
    ShowFirst(items, k);
    AheadFront(items, k + 1);
    var it, x := items[k], Ahead(items, k + 1, k + 1 < |items|);
    if it.Day? {
      NumberAhead(t, p, it.d, x);
    } else {
      RangeAhead(t, p, it.first, it.last, x);
    }
  }

  lemma AheadFront(items: seq<Item>, k: nat)
    requires AllWithin(items, 31) && k <= |items|
    ensures var x := Ahead(items, k, k < |items|);
            if k < |items| then x != "" && x[0] == ',' else x == ""
  {
    if k == |items| {
      assert items[k..] == [];
    }
  }

  lemma RangeAhead(t: string, p: nat, a: nat, b: nat, x: string)
    requires a < 100 && b < 100 && p <= |t| && t[p..] == Num(a) + "-" + Num(b) + x && (x == "" || !IsDigit(x[0]))
    ensures Atoi(t[p..]) == a && At(t, p + Width(a)) == '-'
    ensures var q := p + Width(a) + 1; q <= |t| && Atoi(t[q..]) == b && q + Width(b) <= |t| && t[q + Width(b)..] == x
  {
    hide Num, Digits, Atoi;
    var y := "-" + (Num(b) + x);
    assert Num(a) + "-" + Num(b) + x == Num(a) + y;
    NumberAhead(t, p, a, y);
    var q := p + Width(a);
    assert t[q + 1..] == t[q..][1..] == Num(b) + x;
    NumberAhead(t, q + 1, b, x);
  }

  lemma CommaAhead(t: string, p: nat, items: seq<Item>, k: nat)
    requires AllWithin(items, 31) && k < |items| && p <= |t| && t[p..] == Ahead(items, k, true)
    ensures p < |t| && Atoi(t[p..]) == 0 && t[p + 1..] == Ahead(items, k, false)
  {
    var s := t[p..];
    assert s[0] == ',';
    assert t[p + 1..] == s[1..] == Show(items[k..]);
  }

  // ---- the parsers

  /** The entries marked: those that the items mark, and those that were marked before. */
  ghost predicate Marked(now: seq<nat>, was: seq<nat>, items: seq<Item>, hits: Hits)
  {
    |now| == |was| && forall i :: 0 <= i < |now| ==> now[i] == if Marks(items, hits, i) then 1 else was[i]
  }

  lemma MarkedMore(was: seq<nat>, mid: seq<nat>, now: seq<nat>, items: seq<Item>, k: nat, hits: Hits)
    requires k < |items| && Marked(mid, was, items[..k], hits) && |now| == |mid|
    requires forall i :: 0 <= i < |now| ==> now[i] == if hits(items[k], i) then 1 else mid[i]
    ensures Marked(now, was, items[..k + 1], hits)
  {
    assert items[..k + 1] == items[..k] + [items[k]];
    forall i | 0 <= i < |now|
      ensures Marks(items[..k + 1], hits, i) <==> Marks(items[..k], hits, i) || hits(items[k], i)
    {
      if Marks(items[..k], hits, i) {
        var it :| it in items[..k] && hits(it, i);
        assert it in items[..k + 1];
      }
      if hits(items[k], i) {
        assert items[..k + 1][k] == items[k];
      }
    }
  }

  function MonthHits(): Hits
  {
    (it: Item, i: nat) => it.Has(i + 1)
  }

  /** Sunday, written 7, is entry 0. A range that takes in 7 marks the entry behind the week as well. */
  predicate WeekHit(it: Item, i: nat)
  {
    if i == 0 then it.Has(7) else if i < 7 then it.Has(i) else i == 7 && it.Range? && it.Has(7)
  }

  function WeekHits(): Hits
  {
    (it: Item, i: nat) => WeekHit(it, i)
  }

  /** One number or range of a list of days of the month, whose table starts at `base`. */
  method MonthItem(t: string, p: nat, days: array<nat>, base: nat, ghost items: seq<Item>, ghost k: nat) returns (q: nat)
    requires base + 31 <= days.Length
    requires AllWithin(items, 31) && k < |items| && p <= |t| && t[p..] == Ahead(items, k, false)
    modifies days
    ensures p < q <= |t| && t[q..] == Ahead(items, k + 1, k + 1 < |items|)
    ensures forall i :: 0 <= i < days.Length ==>
      days[i] == if base <= i < base + 31 && MonthHits()(items[k], i - base) then 1 else old(days[i])
  {
    hide Atoi, Ahead;
    ItemAhead(t, p, items, k);
    assert items[k].Within(31);
    var first := Atoi(t[p..]);
    var count := Width(first);
    if At(t, p + count) == ',' {
      days[base + first - 1] := 1;
      q := p + count;
    } else if At(t, p + count) == '-' {
      q := p + count + 1;
      var last := Atoi(t[q..]);
      var loop := first;
      while loop < last + 1
        invariant first <= loop && (loop <= last + 1 || loop == first)
        invariant forall i :: 0 <= i < days.Length ==> days[i] == if first <= i - base + 1 < loop then 1 else old(days[i])
      {
        days[base + loop - 1] := 1;
        loop := loop + 1;
      }
      q := q + Width(last);
    } else {
      days[base + first - 1] := 1;
      q := p + count;
    }
  }

  /** css_format_month_date: for every list of days, however spaced, exactly the days denoted are marked. */
  method FormatMonth(text: string, days: array<nat>, base: nat, ghost items: seq<Item>) returns (ret: int)
    requires base + 31 <= days.Length && AllWithin(items, 31) && NoSpaces(text) == Show(items)
    modifies days
    ensures ret == 0 && Marked(days[base..base + 31], old(days[base..base + 31]), items, MonthHits())
    ensures forall i :: 0 <= i < days.Length && !(base <= i < base + 31) ==> days[i] == old(days[i])
  {
    hide Atoi, Show, Marks, Marked, Ahead, NoSpaces;
    var t := TrimSpace(text);
    var p := 0;
    ghost var k, comma := 0, false;
    Start(t, days[base..base + 31], items, MonthHits());
    while p < |t|
      invariant p <= |t| && k <= |items| && (comma ==> k < |items|) && t[p..] == Ahead(items, k, comma)
      invariant Marked(days[base..base + 31], old(days[base..base + 31]), items[..k], MonthHits())
      invariant forall i :: 0 <= i < days.Length && !(base <= i < base + 31) ==> days[i] == old(days[i])
      decreases |t| - p
    {
      AheadEnd(items, k, comma);
      if comma {
        CommaAhead(t, p, items, k);
      } else {
        ItemAhead(t, p, items, k);
        assert items[k].Within(31);
      }
      if Atoi(t[p..]) != 0 {
        ghost var mid := days[base..base + 31];
        p := MonthItem(t, p, days, base, items, k);
        MarkedMore(old(days[base..base + 31]), mid, days[base..base + 31], items, k, MonthHits());
        k, comma := k + 1, k + 1 < |items|;
      } else {
        p, comma := p + 1, false;
      }
    }
    AheadEnd(items, k, comma);
    ret := 0;
    assert items[..k] == items;
  }

  /** One number or range of a list of days of the week. */
  method WeekItem(t: string, p: nat, days: array<nat>, ghost items: seq<Item>, ghost k: nat) returns (q: nat)
    requires days.Length > 7 && WeekDays(items) && k < |items| && p <= |t| && t[p..] == Ahead(items, k, false)
    modifies days
    ensures p < q <= |t| && t[q..] == Ahead(items, k + 1, k + 1 < |items|)
    ensures forall i :: 0 <= i < days.Length ==> days[i] == if WeekHit(items[k], i) then 1 else old(days[i])
  {
    hide Atoi, Ahead;
    ItemAhead(t, p, items, k);
    assert items[k].Within(7);
    var first := Atoi(t[p..]);
    var count := Width(first);
    if At(t, p + count) == ',' {
      if first == 7 {
        first := 0;
      }
      days[first] := 1;
      q := p + count;
    } else if At(t, p + count) == '-' {
      q := p + count + 1;
      var last := Atoi(t[q..]);
      var loop := first;
      while loop < last + 1
        invariant first <= loop && (loop <= last + 1 || loop == first)
        invariant forall i :: 0 <= i < days.Length ==>
          days[i] == if first <= i < loop || (i == 0 && first <= 7 < loop) then 1 else old(days[i])
      {
        if loop == 7 {
          days[0] := 1;
        }
        days[loop] := 1;
        loop := loop + 1;
      }
      q := q + Width(last);
    } else {
      if first == 7 {
        first := 0;
      }
      days[first] := 1;
      q := p + 1;
    }
  }

  /** Days and ranges of a week. */
  predicate WeekDays(items: seq<Item>)
  {
    AllWithin(items, 31) && forall it <- items :: it.Within(7)
  }

  /** Some range takes in day 7. */
  predicate Overruns(items: seq<Item>)
  {
    exists it <- items :: it.Range? && it.Has(7)
  }

  /** Some item names the day of the week, Sunday being 0 for the program and 7 in the texts. */
  predicate NamesWeekDay(items: seq<Item>, weekDay: nat)
  {
    exists it <- items :: it.Has(if weekDay == 0 then 7 else weekDay)
  }

  lemma WeekMarks(items: seq<Item>, i: nat)
    ensures Marks(items, WeekHits(), i) <==> if i < 7 then NamesWeekDay(items, i) else i == 7 && Overruns(items)
  {
    if Marks(items, WeekHits(), i) {
      var it :| it in items && WeekHits()(it, i);
    }
    if it :| it in items && i < 8 && it.Has(if i == 0 then 7 else i) && (i == 7 ==> it.Range?) {
      assert WeekHits()(it, i);
    }
  }

  /** css_format_week_date, on the week's table of seven entries and what lies behind it: a range that takes in day 7 marks
      the entry behind the week. */
  method FormatWeek(text: string, days: array<nat>, ghost items: seq<Item>) returns (ret: int)
    requires days.Length > 7 && WeekDays(items) && NoSpaces(text) == Show(items)
    modifies days
    ensures ret == 0 && Marked(days[..], old(days[..]), items, WeekHits())
  {
    hide Atoi, Show, Marks, Marked, Ahead, NoSpaces;
    var t := TrimSpace(text);
    var p := 0;
    ghost var k, comma := 0, false;
    Start(t, days[..], items, WeekHits());
    while p < |t|
      invariant p <= |t| && k <= |items| && (comma ==> k < |items|) && t[p..] == Ahead(items, k, comma)
      invariant Marked(days[..], old(days[..]), items[..k], WeekHits())
      decreases |t| - p
    {
      AheadEnd(items, k, comma);
      if comma {
        CommaAhead(t, p, items, k);
      } else {
        ItemAhead(t, p, items, k);
        assert items[k].Within(31);
      }
      if Atoi(t[p..]) != 0 {
        ghost var mid := days[..];
        p := WeekItem(t, p, days, items, k);
        MarkedMore(old(days[..]), mid, days[..], items, k, WeekHits());
        k, comma := k + 1, k + 1 < |items|;
      } else {
        p, comma := p + 1, false;
      }
    }
    AheadEnd(items, k, comma);
    ret := 0;
    assert items[..k] == items;
  }

  lemma Start(t: string, was: seq<nat>, items: seq<Item>, hits: Hits)
    requires AllWithin(items, 31) && t == Show(items)
    ensures t[0..] == Ahead(items, 0, false) && Marked(was, was, items[..0], hits)
  {
    assert items[0..] == items && t[0..] == t && "" + Show(items) == Show(items);
  }

  lemma AheadEnd(items: seq<Item>, k: nat, comma: bool)
    requires AllWithin(items, 31) && k <= |items| && (comma ==> k < |items|)
    ensures Ahead(items, k, comma) == "" <==> k == |items|
  {
    if k < |items| {
      assert items[k..][0].Within(31);
    }
  }

  // ---- days of the year

  /** The days of one month, 1 to 12. */
  datatype MonthList = MonthList(month: nat, items: seq<Item>)
  {
    predicate Valid()
    {
      1 <= month <= 12 && AllWithin(items, 31)
    }

    function Text(): string
      requires Valid()
    {
      Num(month) + ":" + Show(items)
    }
  }

  predicate AllValid(es: seq<MonthList>)
  {
    forall e <- es :: e.Valid()
  }

  function ShowYear(es: seq<MonthList>): string
    requires AllValid(es)
  {
    if es == [] then "" else es[0].Text() + if |es| == 1 then "" else ";" + ShowYear(es[1..])
  }

  predicate YearMarks(es: seq<MonthList>, month: nat, i: nat)
  {
    exists e <- es :: e.month == month && Marks(e.items, MonthHits(), i)
  }

  type Table = rows: seq<array<nat>> | forall r <- rows :: r.Length == 31 witness []

  ghost predicate Distinct(rows: Table)
  {
    |rows| == 12 && forall i, j :: 0 <= i < j < 12 ==> rows[i] != rows[j]
  }

  ghost function Days(rows: Table): (r: seq<seq<nat>>)
    reads rows
    ensures |r| == |rows| && forall m :: 0 <= m < |rows| ==> r[m] == rows[m][..]
  {
    seq(|rows|, m requires 0 <= m < |rows| reads rows => rows[m][..])
  }

  /** The table's entries: those that the lists mark, and those that were marked before. */
  ghost predicate YearMarked(now: seq<seq<nat>>, was: seq<seq<nat>>, es: seq<MonthList>)
  {
    |now| == |was| == 12 && forall m :: 0 <= m < 12 ==> RowMarked(now[m], was[m], es, m + 1)
  }

  ghost predicate RowMarked(now: seq<nat>, was: seq<nat>, es: seq<MonthList>, month: nat)
  {
    |now| == |was| == 31 && forall i :: 0 <= i < 31 ==> now[i] == if YearMarks(es, month, i) then 1 else was[i]
  }

  lemma YearMore(was: seq<seq<nat>>, mid: seq<seq<nat>>, now: seq<seq<nat>>, es: seq<MonthList>, k: nat)
    requires k < |es| && es[k].Valid() && YearMarked(mid, was, es[..k]) && |now| == 12
    requires forall m :: 0 <= m < 12 && m != es[k].month - 1 ==> now[m] == mid[m]
    requires Marked(now[es[k].month - 1], mid[es[k].month - 1], es[k].items, MonthHits())
    ensures YearMarked(now, was, es[..k + 1])
  {
    forall m | 0 <= m < 12
      ensures RowMarked(now[m], was[m], es[..k + 1], m + 1)
    {
      assert RowMarked(mid[m], was[m], es[..k], m + 1);
      forall i | 0 <= i < 31
        ensures YearMarks(es[..k + 1], m + 1, i)
           <==> YearMarks(es[..k], m + 1, i) || (es[k].month == m + 1 && Marks(es[k].items, MonthHits(), i))
      {
        YearMarksMore(es, k, m + 1, i);
      }
    }
  }

  lemma YearMarksMore(es: seq<MonthList>, k: nat, month: nat, i: nat)
    requires k < |es|
    ensures YearMarks(es[..k + 1], month, i)
       <==> YearMarks(es[..k], month, i) || (es[k].month == month && Marks(es[k].items, MonthHits(), i))
  {
    hide Marks;
    assert es[..k + 1] == es[..k] + [es[k]];
    if YearMarks(es[..k], month, i) {
      var e :| e in es[..k] && e.month == month && Marks(e.items, MonthHits(), i);
      assert e in es[..k + 1];
    }
    assert es[..k + 1][k] == es[k];
  }

  /** strstr(…, ";"): where the next semicolon stands, or -1. */
  method FindSemicolon(t: string, p: nat) returns (r: int)
    requires p <= |t|
    ensures r == -1 || p <= r < |t|
    ensures (r != -1 ==> t[r] == ';') && ';' !in t[p..if r == -1 then |t| else r]
  {
    r := p;
    while r < |t|
      invariant p <= r <= |t| && ';' !in t[p..r]
    {
      if t[r] == ';' {
        return r;
      }
      r := r + 1;
    }
    return -1;
  }

  lemma {:induction false} NoSemicolon(items: seq<Item>)
    requires AllWithin(items, 31)
    ensures ';' !in Show(items)
  {
    if items != [] {
      assert items[0].Within(31);
      ItemNoSemicolon(items[0]);
      NoSemicolon(items[1..]);
    }
  }

  lemma ItemNoSemicolon(it: Item)
    requires it.Within(31)
    ensures ';' !in it.Show()
  {
  }

  /** What the parser finds at the front of a month's list. */
  lemma EntryAhead(t: string, p: nat, es: seq<MonthList>, k: nat)
    requires AllValid(es) && k < |es| && p <= |t| && t[p..] == ShowYear(es[k..])
    ensures var e := es[k];
            var q := p + Width(e.month) + 1;
            && e.Valid() && Atoi(t[p..]) == e.month && q <= |t|
            && t[q..] == Show(e.items) + if k + 1 < |es| then ";" + ShowYear(es[k + 1..]) else ""
  {
    hide Show, ShowYear, Num, Atoi, Digits;
    YearFirst(es, k);
    var e, p1 := es[k], p + Width(es[k].month);
    var y := Show(e.items) + if k + 1 < |es| then ";" + ShowYear(es[k + 1..]) else "";
    NumberAhead(t, p, e.month, ":" + y);
    assert t[p1 + 1..] == t[p1..][1..] == y;
  }

  lemma YearFirst(es: seq<MonthList>, k: nat)
    requires AllValid(es) && k < |es|
    ensures es[k].Valid()
    ensures var e := es[k];
            var y := Show(e.items) + if k + 1 < |es| then ";" + ShowYear(es[k + 1..]) else "";
            ShowYear(es[k..]) == Num(e.month) + (":" + y)
  {
    hide Show, Num;
    var e, tail := es[k], es[k..];
    assert tail[0] == e && tail[1..] == es[k + 1..] && e.Valid();
    var x := if |tail| == 1 then "" else ";" + ShowYear(tail[1..]);
    assert ShowYear(tail) == e.Text() + x;
    hide ShowYear;
    Regroup(Num(e.month), ":", Show(e.items), x);
  }

  lemma NoSpaceLeft(text: string, from: nat, to: nat)
    requires from <= to <= |NoSpaces(text)|
    ensures NoSpaces(NoSpaces(text)[from..to]) == NoSpaces(text)[from..to]
  {
    KeptNone(text, IsSpace());
    KeptAll(NoSpaces(text)[from..to], IsSpace());
  }

  /** The list that ends at the next semicolon. */
  lemma ListEnds(t: string, q: nat, r: int, items: seq<Item>, x: string)
    requires AllWithin(items, 31) && q <= |t| && t[q..] == Show(items) + x && (x == "" || x[0] == ';')
    requires r == -1 || q <= r < |t|
    requires (r != -1 ==> t[r] == ';') && ';' !in t[q..if r == -1 then |t| else r]
    ensures r == -1 <==> x == ""
    ensures var end := if r == -1 then |t| else r; t[q..end] == Show(items) && t[end..] == x
  {
    NoSemicolon(items);
    var n, end := |Show(items)|, if r == -1 then |t| else r;
    hide Show;
    assert forall i :: q <= i < q + n ==> t[i] == t[q..][i - q] == Show(items)[i - q] && Show(items)[i - q] in Show(items);
    assert x != "" ==> t[q + n] == t[q..][n] == x[0];
    assert forall i :: q <= i < end ==> t[i] == t[q..end][i - q];
    assert end == q + n;
    assert t[q..end] == t[q..][..n] && t[end..] == t[q..][n..];
  }

  /** One month's list, up to the next semicolon. */
  method YearEntry(text: string, t: string, p: nat, rows: Table, ghost es: seq<MonthList>, ghost k: nat) returns (r: int)
    requires Distinct(rows) && AllValid(es) && k < |es| && t == NoSpaces(text) && p <= |t| && t[p..] == ShowYear(es[k..])
    modifies rows
    ensures (r == -1 || p <= r < |t|) && (r == -1 <==> k + 1 == |es|)
    ensures r >= 0 ==> t[r + 1..] == ShowYear(es[k + 1..])
    ensures forall m :: 0 <= m < 12 && m != es[k].month - 1 ==> Days(rows)[m] == old(Days(rows))[m]
    ensures es[k].Valid() && Marked(Days(rows)[es[k].month - 1], old(Days(rows))[es[k].month - 1], es[k].items, MonthHits())
  {
    hide Atoi, Show, ShowYear, Marked, NoSpaces, Kept;
    EntryAhead(t, p, es, k);
    var month := Atoi(t[p..]);
    var q := p + Width(month) + 1;
    r := FindSemicolon(t, q);
    ListEnds(t, q, r, es[k].items, if k + 1 < |es| then ";" + ShowYear(es[k + 1..]) else "");
    var end := if r == -1 then |t| else r;
    NoSpaceLeft(text, q, end);
    var ret := FormatMonth(t[q..end], rows[month - 1], 0, es[k].items);
    assert rows[month - 1][0..31] == rows[month - 1][..] && old(rows[month - 1][0..31]) == old(rows[month - 1][..]);
    if r != -1 {
      assert t[r + 1..] == t[r..][1..];
    }
  }

  /** css_format_year_date: for every list of months and days, exactly the days denoted are marked; an empty text is
      refused. */
  method FormatYear(text: string, rows: Table, ghost es: seq<MonthList>, ghost own: set<object>)
    returns (ret: int)
    requires Distinct(rows) && AllValid(es) && NoSpaces(text) == ShowYear(es) && forall r <- rows :: r in own
    modifies own
    ensures ret == if es == [] then -1 else 0
    ensures YearMarked(Days(rows), old(Days(rows)), es)
  {
    hide Atoi, ShowYear, YearMarked, Marked, NoSpaces;
    var t := TrimSpace(text);
    StartYear(Days(rows), es);
    if Atoi(t) == 0 {
      return -1;
    }
    var p: nat, more := 0, true;
    ghost var k := 0;
    assert t[0..] == t && es[0..] == es;
    while more
      invariant more ==> k < |es| && p <= |t| && t[p..] == ShowYear(es[k..])
      invariant !more ==> k == |es|
      invariant YearMarked(Days(rows), old(Days(rows)), es[..k])
      decreases |es| - k, more
    {
      ghost var mid := Days(rows);
      var r := YearEntry(text, t, p, rows, es, k);
      YearMore(old(Days(rows)), mid, Days(rows), es, k);
      k := k + 1;
      p, more := r + 1, r != -1;
    }
    assert es[..k] == es;
    ret := 0;
  }

  lemma StartYear(days: seq<seq<nat>>, es: seq<MonthList>)
    requires |days| == 12 && (forall m :: 0 <= m < 12 ==> |days[m]| == 31) && AllValid(es)
    ensures YearMarked(days, days, es[..0])
    ensures es == [] <==> Atoi(ShowYear(es)) == 0
    ensures es == [] ==> YearMarked(days, days, es)
  {
    if es != [] {
      assert ShowYear(es)[0..] == ShowYear(es) && es[0..] == es;
      EntryAhead(ShowYear(es), 0, es, 0);
    }
  }

  // ---- a holiday calendar

  class Calendar {
    const monthDay: Table
    /** day_in_week[7], and behind it day_in_month[31] */
    const days: array<nat>

    ghost predicate Valid()
      reads this
    {
      Distinct(monthDay) && days.Length == 38 && days !in monthDay
    }

    /** A calendar without a mark. */
    constructor ()
      ensures Valid() && fresh(days) && forall r <- monthDay :: fresh(r)
      ensures Days(monthDay) == seq(12, _ => seq(31, _ => 0)) && days[..] == seq(38, _ => 0)
    {
      var rows: Table := [];
      while |rows| < 12
        invariant |rows| <= 12 && forall r <- rows :: fresh(r)
        invariant forall i, j :: 0 <= i < j < |rows| ==> rows[i] != rows[j]
        invariant forall i :: 0 <= i < |rows| ==> rows[i][..] == seq(31, _ => 0)
      {
        var row := new nat[31](_ => 0);
        rows := rows + [row];
      }
      monthDay := rows;
      days := new nat[38](_ => 0);
      new;
      assert Days(monthDay) == seq(12, _ => seq(31, _ => 0));
    }

    /** today_need_work of a holiday calendar, on a day of a month (both from 0) and of the week (Sunday is 0). */
    method NeedsWork(month: nat, day: nat, weekDay: nat) returns (work: bool)
      requires Valid() && month < 12 && day < 31 && weekDay < 7
      ensures work <==> Days(monthDay)[month][day] != 1 && days[7 + day] != 1 && days[weekDay] != 1
    {
      work := !(monthDay[month][day] == 1 || days[7 + day] == 1 || days[weekDay] == 1);
    }
  }

  /** One of the calendar's texts names the day. */
  ghost predicate DayOff(es: seq<MonthList>, ws: seq<Item>, ms: seq<Item>, mon: nat, day: nat, weekDay: nat)
  {
    YearMarks(es, mon + 1, day) || NamesWeekDay(ws, weekDay) || exists it <- ms :: it.Has(day + 1)
  }

  /** The day, Sunday being day 7 of the week, is a number of one of the lists or inside one of its ranges. */
  lemma DayOffIs(es: seq<MonthList>, ws: seq<Item>, ms: seq<Item>, mon: nat, day: nat, weekDay: nat)
    ensures DayOff(es, ws, ms, mon, day, weekDay) <==>
            || (exists e, it :: && e in es && e.month == mon + 1 && it in e.items
                                && if it.Day? then it.d == day + 1 else it.first <= day + 1 <= it.last)
            || (exists it :: && it in ws && var d := if weekDay == 0 then 7 else weekDay;
                             if it.Day? then it.d == d else it.first <= d <= it.last)
            || (exists it :: it in ms && if it.Day? then it.d == day + 1 else it.first <= day + 1 <= it.last)
  {
    hide Marks;
    if YearMarks(es, mon + 1, day) {
      var e :| e in es && e.month == mon + 1 && Marks(e.items, MonthHits(), day);
      MonthMarks(e.items, day);
    }
    if e, it :| && e in es && e.month == mon + 1 && it in e.items
                && if it.Day? then it.d == day + 1 else it.first <= day + 1 <= it.last {
      assert it.Has(day + 1);
      MonthMarks(e.items, day);
    }
    if it :| it in ws && var d := if weekDay == 0 then 7 else weekDay; if it.Day? then it.d == d else it.first <= d <= it.last {
      assert it.Has(if weekDay == 0 then 7 else weekDay);
    }
    if it :| it in ms && if it.Day? then it.d == day + 1 else it.first <= day + 1 <= it.last {
      assert it.Has(day + 1);
    }
  }

  /** From the texts of a holiday calendar to its verdict. Work is needed on the days that none of them names, but not on the
      first of a month if a range of days of the week takes in Sunday: the verdict is wrong exactly then. */
  method Holiday(year: string, week: string, month: string, ghost es: seq<MonthList>, ghost ws: seq<Item>, ghost ms: seq<Item>,
                 mon: nat, day: nat, weekDay: nat) returns (work: bool)
    requires forall e <- es :: 1 <= e.month <= 12 && forall it <- e.items ::
               if it.Day? then 1 <= it.d <= 31 else 1 <= it.first <= 31 && 1 <= it.last <= 31
    requires forall it <- ws :: if it.Day? then 1 <= it.d <= 7 else 1 <= it.first <= 7 && 1 <= it.last <= 7
    requires forall it <- ms :: if it.Day? then 1 <= it.d <= 31 else 1 <= it.first <= 31 && 1 <= it.last <= 31
    requires NoSpaces(year) == ShowYear(es) && NoSpaces(week) == Show(ws) && NoSpaces(month) == Show(ms)
    requires mon < 12 && day < 31 && weekDay < 7
    ensures work <==> !DayOff(es, ws, ms, mon, day, weekDay) && !(day == 0 && Overruns(ws))
    ensures (work <==> !DayOff(es, ws, ms, mon, day, weekDay)) <==>
            day != 0 || !Overruns(ws) || DayOff(es, ws, ms, mon, day, weekDay)
  {
    assert AllValid(es) && WeekDays(ws) && AllWithin(ms, 31);
    hide NoSpaces, Show, ShowYear, DayOff, Overruns, Tables, AllValid, WeekDays, AllWithin;
    var cal := ReadTexts(year, week, month, es, ws, ms);
    TextsMean(Days(cal.monthDay), cal.days[..], es, ws, ms, mon, day, weekDay);
    work := cal.NeedsWork(mon, day, weekDay);
  }

  /** The tables after all three texts have been read. */
  ghost predicate Tables(year: seq<seq<nat>>, days: seq<nat>, es: seq<MonthList>, ws: seq<Item>, ms: seq<Item>)
  {
    && YearMarked(year, seq(12, _ => seq(31, _ => 0)), es)
    && exists was: seq<nat> ::
         && |days| == |was| == 38 && Marked(was, seq(38, _ => 0), ws, WeekHits())
         && Marked(days[7..38], was[7..38], ms, MonthHits()) && forall i :: 0 <= i < 7 ==> days[i] == was[i]
  }

  method ReadTexts(year: string, week: string, month: string, ghost es: seq<MonthList>, ghost ws: seq<Item>, ghost ms: seq<Item>)
    returns (cal: Calendar)
    requires AllValid(es) && NoSpaces(year) == ShowYear(es)
    requires WeekDays(ws) && NoSpaces(week) == Show(ws) && AllWithin(ms, 31) && NoSpaces(month) == Show(ms)
    ensures cal.Valid() && Tables(Days(cal.monthDay), cal.days[..], es, ws, ms)
  {
    hide NoSpaces, Show, ShowYear, Marks, YearMarks, Marked, RowMarked;
    cal := new Calendar();
    ghost var own: set<object> := set r | r in cal.monthDay;
    var ret := FormatYear(year, cal.monthDay, es, own);
    ret := FormatWeek(week, cal.days, ws);
    ghost var was := cal.days[..];
    ret := FormatMonth(month, cal.days, 7, ms);
  }

  lemma TextsMean(year: seq<seq<nat>>, days: seq<nat>, es: seq<MonthList>, ws: seq<Item>, ms: seq<Item>, mon: nat, day: nat,
                  weekDay: nat)
    requires Tables(year, days, es, ws, ms) && mon < 12 && day < 31 && weekDay < 7
    ensures |year| == 12 && |year[mon]| == 31 && |days| == 38
    ensures year[mon][day] != 1 && days[7 + day] != 1 && days[weekDay] != 1 <==>
            !DayOff(es, ws, ms, mon, day, weekDay) && !(day == 0 && Overruns(ws))
  {
    hide YearMarks, NamesWeekDay, Overruns, Marked, YearMarked;
    var was: seq<nat> :| |days| == |was| == 38 && Marked(was, seq(38, _ => 0), ws, WeekHits())
      && Marked(days[7..38], was[7..38], ms, MonthHits()) && forall i :: 0 <= i < 7 ==> days[i] == was[i];
    YearMeans(year, es, mon, day);
    TableMeans(days, was, ws, ms, day, weekDay);
  }

  lemma YearMeans(days: seq<seq<nat>>, es: seq<MonthList>, mon: nat, day: nat)
    requires mon < 12 && day < 31 && YearMarked(days, seq(12, _ => seq(31, _ => 0)), es)
    ensures |days| == 12 && |days[mon]| == 31 && (days[mon][day] == 1 <==> YearMarks(es, mon + 1, day))
  {
    hide YearMarks;
    assert RowMarked(days[mon], seq(31, _ => 0), es, mon + 1);
  }

  /** What the table of the week, with that of the month behind it, says of a day once both lists have been read. */
  lemma TableMeans(now: seq<nat>, was: seq<nat>, ws: seq<Item>, ms: seq<Item>, day: nat, weekDay: nat)
    requires |now| == |was| == 38 && day < 31 && weekDay < 7
    requires Marked(was, seq(38, _ => 0), ws, WeekHits()) && Marked(now[7..38], was[7..38], ms, MonthHits())
    requires forall i :: 0 <= i < 7 ==> now[i] == was[i]
    ensures now[weekDay] == 1 <==> NamesWeekDay(ws, weekDay)
    ensures now[7 + day] == 1 <==> (day == 0 && Overruns(ws)) || exists it <- ms :: it.Has(day + 1)
  {
    hide Marks, NamesWeekDay, Overruns;
    WeekMarks(ws, weekDay);
    WeekMarks(ws, 7 + day);
    MonthMarks(ms, day);
    assert now[7..38][day] == now[7 + day] && was[7..38][day] == was[7 + day];
  }

  lemma MonthMarks(items: seq<Item>, i: nat)
    ensures Marks(items, MonthHits(), i) <==> exists it <- items :: it.Has(i + 1)
  {
    if it :| it in items && it.Has(i + 1) {
      assert MonthHits()(it, i);
    }
  }

  /** A calendar of week-ends asks for no work on a first of the month that is a Wednesday. */
  method FirstOfMonth() returns (work: bool)
    ensures !work && !DayOff([], [Range(6, 7)], [], 9, 0, 3) && Show([Range(6, 7)]) == "6-7"
  {
    var ws := [Range(6, 7)];
    assert NoSpaces("") == "" && NoSpaces("6-7") == "6-7" by {
      assert "6-7"[1..] == "-7" && "-7"[1..] == "7" && "7"[1..] == "";
    }
    assert ws[0].Has(7) && Overruns(ws);
    work := Holiday("", "6-7", "", [], ws, [], 9, 0, 3);
  }

  // ---- the lists of the source's own tests

  lemma NoSpaceIn(s: string)
    requires forall c <- s :: c != ' '
    ensures NoSpaces(s) == s
  {
    KeptAll(s, IsSpace());
  }

  lemma ShowMore(items: seq<Item>)
    requires AllWithin(items, 31) && items != []
    ensures Show(items) == items[0].Show() + if |items| == 1 then "" else "," + Show(items[1..])
  {
  }

  lemma ShowThree(a: Item, b: Item, c: Item)
    requires a.Within(31) && b.Within(31) && c.Within(31)
    ensures AllWithin([a, b, c], 31) && Show([a, b, c]) == a.Show() + ("," + (b.Show() + ("," + c.Show())))
  {
    assert [a, b, c][1..] == [b, c] && [b, c][1..] == [c];
    ShowMore([a, b, c]);
    ShowMore([b, c]);
    ShowMore([c]);
    assert c.Show() + "" == c.Show();
  }

  lemma ItemTexts()
    ensures Day(6).Show() == "6" && Day(7).Show() == "7" && Day(8).Show() == "8"
    ensures Range(1, 3).Show() == "1-3" && Range(11, 20).Show() == "11-20"
  {
  }

  lemma WeekTestAt(i: nat)
    requires i < 8
    ensures Marks([Day(6), Range(1, 3), Day(7)], WeekHits(), i) <==> i == 0 || i == 1 || i == 2 || i == 3 || i == 6
  {
    hide Marks;
    ThreeMark([Day(6), Range(1, 3), Day(7)], WeekHits(), i);
  }

  lemma WeekText()
    ensures var items := [Day(6), Range(1, 3), Day(7)]; AllWithin(items, 31) && Show(items) == "6,1-3,7"
  {
    hide Show, Item.Show;
    ShowThree(Day(6), Range(1, 3), Day(7));
    ItemTexts();
  }

  lemma TestTexts()
    ensures NoSpaces("6,1-3,7") == "6,1-3,7" && NoSpaces("6,8,11-20") == "6,8,11-20"
  {
    NoSpaceIn("6,1-3,7");
    NoSpaceIn("6,8,11-20");
  }

  lemma WeekTest()
    ensures var items := [Day(6), Range(1, 3), Day(7)];
            && WeekDays(items) && Show(items) == "6,1-3,7" && NoSpaces("6,1-3,7") == "6,1-3,7"
            && forall i :: 0 <= i < 8 ==> (Marks(items, WeekHits(), i) <==> i == 0 || i == 1 || i == 2 || i == 3 || i == 6)
  {
    hide Show, NoSpaces, Marks, Item.Show;
    WeekText();
    TestTexts();
    forall i | 0 <= i < 8
      ensures Marks([Day(6), Range(1, 3), Day(7)], WeekHits(), i) <==> i == 0 || i == 1 || i == 2 || i == 3 || i == 6
    {
      WeekTestAt(i);
    }
  }

  lemma ThreeMark(items: seq<Item>, hits: Hits, i: nat)
    requires |items| == 3
    ensures Marks(items, hits, i) <==> hits(items[0], i) || hits(items[1], i) || hits(items[2], i)
  {
    assert items[0] in items && items[1] in items && items[2] in items;
  }

  method WeekOfTest() returns (days: array<nat>)
    ensures fresh(days) && days[..] == [1, 1, 1, 1, 0, 0, 1, 0]
  {
    WeekTest();
    hide Show, NoSpaces, Marks;
    days := new nat[8](_ => 0);
    var ret := FormatWeek("6,1-3,7", days, [Day(6), Range(1, 3), Day(7)]);
  }

  lemma MonthTestAt(i: nat)
    requires i < 31
    ensures Marks([Day(6), Day(8), Range(11, 20)], MonthHits(), i) <==> i == 5 || i == 7 || 10 <= i < 20
  {
    hide Marks;
    ThreeMark([Day(6), Day(8), Range(11, 20)], MonthHits(), i);
  }

  lemma MonthTest()
    ensures var items := [Day(6), Day(8), Range(11, 20)];
            && AllWithin(items, 31) && Show(items) == "6,8,11-20" && NoSpaces("6,8,11-20") == "6,8,11-20"
            && forall i :: 0 <= i < 31 ==> (Marks(items, MonthHits(), i) <==> i == 5 || i == 7 || 10 <= i < 20)
  {
    var items := [Day(6), Day(8), Range(11, 20)];
    hide Show, NoSpaces, Marks, Item.Show;
    ShowThree(Day(6), Day(8), Range(11, 20));
    ItemTexts();
    TestTexts();
    forall i | 0 <= i < 31
      ensures Marks(items, MonthHits(), i) <==> i == 5 || i == 7 || 10 <= i < 20
    {
      MonthTestAt(i);
    }
  }

  method MonthOfTest() returns (days: array<nat>)
    ensures fresh(days) && days.Length == 31
    ensures forall i :: 0 <= i < 31 ==> days[i] == if i == 5 || i == 7 || 10 <= i < 20 then 1 else 0
  {
    MonthTest();
    hide Show, NoSpaces, Marks;
    days := new nat[31](_ => 0);
    var ret := FormatMonth("6,8,11-20", days, 0, [Day(6), Day(8), Range(11, 20)]);
    assert days[0..31] == days[..];
  }

  function TestYear(): (es: seq<MonthList>)
  {
    [MonthList(5, [Day(1), Day(3)]), MonthList(7, [Day(1), Day(2), Range(10, 20), Day(25)]), MonthList(6, [Day(2)])]
  }

  lemma YearItemTexts()
    ensures Day(1).Show() == "1" && Day(2).Show() == "2" && Day(3).Show() == "3" && Day(25).Show() == "25"
    ensures Range(10, 20).Show() == "10-20" && Num(5) == "5" && Num(6) == "6" && Num(7) == "7"
  {
  }

  lemma MonthTexts()
    ensures AllWithin([Day(1), Day(3)], 31) && Show([Day(1), Day(3)]) == "1,3"
    ensures AllWithin([Day(2)], 31) && Show([Day(2)]) == "2"
    ensures var items := [Day(1), Day(2), Range(10, 20), Day(25)]; AllWithin(items, 31) && Show(items) == "1,2,10-20,25"
  {
    hide Show, Item.Show;
    YearItemTexts();
    ShowMore([Day(2)]);
    assert [Day(1), Day(3)][1..] == [Day(3)];
    ShowMore([Day(3)]);
    ShowMore([Day(1), Day(3)]);
    var items := [Day(1), Day(2), Range(10, 20), Day(25)];
    assert items[1..] == [Day(2), Range(10, 20), Day(25)];
    ShowThree(Day(2), Range(10, 20), Day(25));
    ShowMore(items);
  }

  lemma ShowYearMore(es: seq<MonthList>)
    requires AllValid(es) && es != []
    ensures ShowYear(es) == es[0].Text() + if |es| == 1 then "" else ";" + ShowYear(es[1..])
  {
  }

  lemma YearText()
    ensures |TestYear()| == 3 && AllValid(TestYear()) && ShowYear(TestYear()) == "5:1,3;7:1,2,10-20,25;6:2"
  {
    hide Show, ShowYear, AllWithin, Num;
    MonthTexts();
    YearItemTexts();
    var es := TestYear();
    var last := [MonthList(6, [Day(2)])];
    var two := [MonthList(7, [Day(1), Day(2), Range(10, 20), Day(25)])] + last;
    assert es[1..] == two && two[1..] == last;
    ShowYearMore(es);
    ShowYearMore(two);
    ShowYearMore(last);
  }

  lemma YearSpaces()
    ensures NoSpaces("5:1,3;7:1,2,10-20,25;6:2") == "5:1,3;7:1,2,10-20,25;6:2"
  {
    NoSpaceIn("5:1,3;7:1,2,10-20,25;6:2");
  }

  lemma YearTestAt(m: nat, i: nat)
    requires m < 12 && i < 31
    ensures YearMarks(TestYear(), m + 1, i) <==>
            (m == 4 && (i == 0 || i == 2)) || (m == 5 && i == 1) || (m == 6 && (i == 0 || i == 1 || 9 <= i < 20 || i == 24))
  {
    var es := TestYear();
    hide Marks;
    assert es[0] in es && es[1] in es && es[2] in es;
    MonthMarks(es[0].items, i);
    MonthMarks(es[1].items, i);
    MonthMarks(es[2].items, i);
    assert es[0].items[0] in es[0].items && es[0].items[1] in es[0].items && es[2].items[0] in es[2].items;
    assert es[1].items[0] in es[1].items && es[1].items[1] in es[1].items;
    assert es[1].items[2] in es[1].items && es[1].items[3] in es[1].items;
  }

  /** The months count from 0 in the table, and the days do. */
  method YearOfTest() returns (cal: Calendar, ret: int)
    ensures fresh(cal) && cal.Valid() && ret == 0
    ensures forall m, i :: 0 <= m < 12 && 0 <= i < 31 ==>
              (Days(cal.monthDay)[m][i] == 1 <==>
                (m == 4 && (i == 0 || i == 2)) || (m == 5 && i == 1) || (m == 6 && (i == 0 || i == 1 || 9 <= i < 20 || i == 24)))
  {
    YearText();
    YearSpaces();
    hide Show, ShowYear, NoSpaces, YearMarks, TestYear, AllValid, RowMarked;
    cal := new Calendar();
    ghost var own: set<object> := set r | r in cal.monthDay;
    assert Days(cal.monthDay) == seq(12, _ => seq(31, _ => 0));
    ret := FormatYear("5:1,3;7:1,2,10-20,25;6:2", cal.monthDay, TestYear(), own);
    forall m, i | 0 <= m < 12 && 0 <= i < 31
      ensures Days(cal.monthDay)[m][i] == 1 <==>
              (m == 4 && (i == 0 || i == 2)) || (m == 5 && i == 1) || (m == 6 && (i == 0 || i == 1 || 9 <= i < 20 || i == 24))
    {
      YearMeans(Days(cal.monthDay), TestYear(), m, i);
      YearTestAt(m, i);
    }
  }
}
