/** Choosing the disk to record on: the list of disks is rotated until a usable one comes to its end. */
module DiskManager {
  import opened Arithmetic
  import opened Sequences
  import opened LinkedList

  // ---- choosing, on values

  predicate NoRepeats<D(==)>(s: seq<D>)
  {
    forall i, j :: 0 <= i < j < |s| ==> s[i] != s[j]
  }

  /** Where the first good disk stands, or the length. */
  function FirstGood<D(==)>(s: seq<D>, good: set<D>): (k: nat)
    ensures k <= |s| && (k < |s| ==> s[k] in good) && forall i :: 0 <= i < k ==> s[i] !in good
  {
    if s == [] || s[0] in good then 0 else 1 + FirstGood(s[1..], good)
  }

  /** The list after its first k elements have been popped and pushed again. */
  function Rotated<D>(s: seq<D>, k: nat): seq<D>
    requires k <= |s|
  {
    s[k..] + s[..k]
  }

  /** The good disks, in list order. */
  function Among<D(==)>(s: seq<D>, good: set<D>): (r: seq<D>)
    ensures (forall d <- r :: d in s && d in good) && forall d <- s :: d in good ==> d in r
  {
    if s == [] then [] else (if s[0] in good then [s[0]] else []) + Among(s[1..], good)
  }

  /** The disks chosen by n calls in a row while the disks' health stays as it is. */
  function Picks<D(==)>(s: seq<D>, good: set<D>, n: nat): seq<D>
    decreases n
  {
    var k := FirstGood(s, good);
    if n == 0 || k == |s| then [] else [s[k]] + Picks(Rotated(s, k + 1), good, n - 1)
  }

  lemma {:induction false} AmongSum<D>(a: seq<D>, b: seq<D>, good: set<D>)
    ensures Among(a + b, good) == Among(a, good) + Among(b, good)
  {
    if a == [] {
      assert a + b == b;
    } else {
      assert (a + b)[1..] == a[1..] + b;
      AmongSum(a[1..], b, good);
    }
  }

  lemma {:induction false} AmongNone<D>(s: seq<D>, good: set<D>)
    requires forall d <- s :: d !in good
    ensures Among(s, good) == []
  {
    if s != [] {
      AmongNone(s[1..], good);
    }
  }

  /** A choice takes the first of the good disks and moves it behind the others. */
  lemma ChoiceRotates<D>(s: seq<D>, good: set<D>)
    requires FirstGood(s, good) < |s|
    ensures var k := FirstGood(s, good);
            var u := Among(s, good);
            u != [] && s[k] == u[0] && Among(Rotated(s, k + 1), good) == u[1..] + [u[0]]
  {
    hide FirstGood, Rotated, Among;
    var k := FirstGood(s, good);
    var front, d, tail := s[..k], s[k], s[k + 1..];
    AmongNone(front, good);
    AmongOne(d, good);
    RotatedIs(s, k + 1);
    assert s == front + ([d] + tail) && s[..k + 1] == front + [d];
    AmongSum(front, [d] + tail, good);
    AmongSum([d], tail, good);
    AmongSum(tail, front + [d], good);
    AmongSum(front, [d], good);
    var t := Among(tail, good);
    assert [] + ([d] + t) == [d] + t && t + ([] + [d]) == ([d] + t)[1..] + [d];
  }

  lemma AmongOne<D>(d: D, good: set<D>)
    requires d in good
    ensures Among([d], good) == [d]
  {
    assert [d][1..] == [];
  }

  lemma RotatedIs<D>(s: seq<D>, k: nat)
    requires k <= |s|
    ensures Rotated(s, k) == s[k..] + s[..k]
  {
  }

  /** p goes round u again and again. */
  predicate Cycles<D(==)>(p: seq<D>, u: seq<D>)
  {
    u != [] && forall i :: 0 <= i < |p| ==> p[i] == u[i % |u|]
  }

  /** The choices go round the good disks: the i-th takes the good disk numbered i modulo their number. */
  lemma {:induction false} PicksCycle<D>(s: seq<D>, good: set<D>, n: nat)
    requires Among(s, good) != []
    ensures var u := Among(s, good);
            |Picks(s, good, n)| == n && Cycles(Picks(s, good, n), u)
    decreases n
  {
    hide Among, FirstGood, Rotated, Cycles;
    EmptyCycles(Among(s, good));
    if n > 0 {
      var k := FirstGood(s, good);
      var u := Among(s, good);
      SomeGood(s, good);
      ChoiceRotates(s, good);
      var later := Picks(Rotated(s, k + 1), good, n - 1);
      assert Picks(s, good, n) == [u[0]] + later;
      hide Picks;
      PicksCycle(Rotated(s, k + 1), good, n - 1);
      CycleMore(u, later);
    }
  }

  lemma SomeGood<D>(s: seq<D>, good: set<D>)
    requires Among(s, good) != []
    ensures FirstGood(s, good) < |s|
  {
    assert Among(s, good)[0] in s;
  }

  lemma EmptyCycles<D>(u: seq<D>)
    requires u != []
    ensures Cycles([], u)
  {
  }

  /** A cycle over u that starts one element on, with the element before it. */
  lemma CycleMore<D>(u: seq<D>, p: seq<D>)
    requires u != [] && Cycles(p, u[1..] + [u[0]])
    ensures Cycles([u[0]] + p, u)
  {
    forall i | 0 < i <= |p|
      ensures ([u[0]] + p)[i] == u[i % |u|]
    {
      TurnOn(i, |u|);
      assert p[i - 1] == (u[1..] + [u[0]])[(i - 1) % |u|];
    }
  }

  lemma TurnOn(i: nat, m: nat)
    requires m > 0 && i > 0
    ensures i % m == if (i - 1) % m == m - 1 then 0 else (i - 1) % m + 1
  {
    var q, r := (i - 1) / m, (i - 1) % m;
    assert i - 1 == q * m + r;
    if r == m - 1 {
      assert i == (q + 1) * m;
      Unique(i, m, q + 1, 0);
    } else {
      assert i == q * m + (r + 1);
      Unique(i, m, q, r + 1);
    }
  }

  /** How often the first n turns of a cycle over u fall on its k-th element. */
  function Share(n: nat, m: nat, k: nat): nat
    requires m > 0
  {
    n / m + if k < n % m then 1 else 0
  }

  lemma {:induction false} CycleCounts<D>(p: seq<D>, u: seq<D>, k: nat)
    requires k < |u| && NoRepeats(u) && Cycles(p, u)
    ensures multiset(p)[u[k]] == Share(|p|, |u|, k)
    decreases |p|
  {
    if p != [] {
      var n := |p| - 1;
      var q := p[..n];
      assert p == q + [p[n]];
      CycleCounts(q, u, k);
      TurnOn(n + 1, |u|);
      ShareMore(n, |u|, k);
      assert p[n] == u[k] <==> n % |u| == k;
    }
  }

  lemma ShareMore(n: nat, m: nat, k: nat)
    requires k < m
    ensures Share(n + 1, m, k) == Share(n, m, k) + if n % m == k then 1 else 0
  {
    TurnOn(n + 1, m);
    var q, r := n / m, n % m;
    assert n == q * m + r;
    if r == m - 1 {
      assert n + 1 == (q + 1) * m;
      Unique(n + 1, m, q + 1, 0);
    } else {
      Unique(n + 1, m, q, r + 1);
    }
  }

  /** With fixed health, no usable disk is chosen more than once oftener than another, and no other disk at all. */
  lemma Fair<D>(s: seq<D>, good: set<D>, n: nat, a: D, b: D)
    requires NoRepeats(s)
    requires a in s && a in good && b in s && b in good
    ensures multiset(Picks(s, good, n))[a] <= multiset(Picks(s, good, n))[b] + 1
    ensures forall d <- Picks(s, good, n) :: d in s && d in good
  {
    var u := Among(s, good);
    assert a in u && b in u;
    PicksCycle(s, good, n);
    AmongDistinct(s, good);
    var i :| 0 <= i < |u| && u[i] == a;
    var j :| 0 <= j < |u| && u[j] == b;
    CycleCounts(Picks(s, good, n), u, i);
    CycleCounts(Picks(s, good, n), u, j);
    forall d | d in Picks(s, good, n)
      ensures d in s && d in good
    {
      assert d in u;
    }
  }

  lemma {:induction false} AmongDistinct<D>(s: seq<D>, good: set<D>)
    requires NoRepeats(s)
    ensures NoRepeats(Among(s, good))
  {
    if s != [] {
      AmongDistinct(s[1..], good);
      var u, v := Among(s, good), Among(s[1..], good);
      assert s[0] !in s[1..];
      assert forall d <- v :: d in s[1..];
      hide Among;
      if u != v {
        DistinctMore(s[0], v);
      }
    }
  }

  lemma DistinctMore<D>(d: D, v: seq<D>)
    requires d !in v && NoRepeats(v)
    ensures NoRepeats([d] + v)
  {
  }

  // ---- the manager

  class Disk {
    const name: string
    var usedPer: int
    var errTag: int

    constructor (path: string)
      ensures name == path && errTag == 0
    {
      name, errTag := path, 0;
    }
  }

  class Manager {
    const maxPer: int
    const list: List<Disk>
    ghost const disks: set<Disk>

    ghost predicate Valid()
      reads this, list, list.repr
    {
      list.Valid() && forall d <- list.Contents() :: d in disks && d !in list.repr
    }

    predicate Usable(d: Disk)
      reads d
    {
      !(d.errTag == 1 || d.usedPer > maxPer)
    }

    /** The disks that are well and have room. */
    ghost function Good(): set<Disk>
      reads list, list.Contents()
    {
      set d | d in list.Contents() && Usable(d)
    }

    /** css_init_disk_manager: one disk for each path of the configuration. */
    constructor (paths: seq<string>, max: int)
      ensures Valid() && fresh(list.repr) && |list.Contents()| == |paths|
      ensures forall i :: 0 <= i < |paths| ==> list.Contents()[i].name == paths[i]
      ensures NoRepeats(list.Contents()) && maxPer == max
      ensures forall d <- list.Contents() :: fresh(d) && d.errTag == 0
    {
      hide Items, Chained;
      maxPer := max;
      var l := new List<Disk>();
      var i := 0;
      ghost var made: set<Disk> := {};
      while i < |paths|
        invariant 0 <= i <= |paths| && l.Valid() && fresh(l.repr) && |l.Contents()| == i
        invariant forall d <- l.Contents() :: d in made && d !in l.repr
        invariant fresh(made) && forall d <- made :: d !in l.repr && d.errTag == 0
        invariant forall j :: 0 <= j < i ==> l.Contents()[j].name == paths[j]
        invariant NoRepeats(l.Contents())
      {
        var disk := new Disk(paths[i]);
        assert disk !in l.Contents();
        l.Push(disk);
        made := made + {disk};
        i := i + 1;
      }
      list := l;
      disks := made;
    }

    /** The front disk goes behind the others. */
    method Turn() returns (disk: Disk)
      requires Valid() && list.Contents() != []
      modifies list.repr
      ensures Valid() && fresh(list.repr - old(list.repr))
      ensures disk == old(list.Contents())[0] && list.Contents() == old(list.Contents()[1..] + [list.Contents()[0]])
      ensures Good() == old(Good())
    {
      hide Items, Chained;
      var r, e := list.Pop();
      disk := e[0];
      list.Push(disk);
      ghost var s := old(list.Contents());
      assert s == [s[0]] + s[1..];
      assert forall d <- list.Contents() :: d in s && d in disks;
      assert forall d <- s :: d in list.Contents() && Usable(d) == old(Usable(d));
    }

    /** css_get_disk: look at the disks from the front, putting each behind the others, until one is usable; `count`
        have been looked at already. */
    method GetDisk(len: int, count: nat) returns (reply: int, path: string)
      requires Valid() && count <= |list.Contents()|
      modifies list.repr
      ensures Valid() && fresh(list.repr - old(list.repr)) && Good() == old(Good())
      ensures var s := old(list.Contents());
              var m := |s| - count;
              var k := FirstGood(s[..m], old(Good()));
              if k == m then reply == -1 && list.Contents() == Rotated(s, m)
              else
                && list.Contents() == Rotated(s, k + 1)
                && if |s[k].name| > len - 1 then reply == -1 else reply == 0 && path == s[k].name
      decreases |list.Contents()| - count
    {
      hide Items, FirstGood, Rotated;
      path := "";
      ghost var s, good := list.Contents(), Good();
      FirstStep(s, |s| - count, good);
      if count >= list.size {
        return -1, "";
      }
      var disk := Turn();
      if disk.errTag == 1 || disk.usedPer > maxPer {
        reply, path := GetDisk(len, count + 1);
        return;
      }
      if |disk.name| > len - 1 {
        return -1, "";
      }
      return 0, disk.name;
    }

    /** The choice of a recording's disk, from the whole list: with names that fit, it succeeds exactly when some disk
        is usable, and it is the first usable one; if none is, the order is as before. */
    method Choose(len: int) returns (reply: int, path: string)
      requires Valid()
      modifies list.repr
      ensures Valid() && fresh(list.repr - old(list.repr)) && Good() == old(Good())
      ensures old(Good()) == {} ==> reply == -1 && list.Contents() == old(list.Contents())
      ensures old(Good()) != {} ==>
                var s := old(list.Contents());
                var k := FirstGood(s, old(Good()));
                && k < |s| && list.Contents() == Rotated(s, k + 1)
                && reply == (if |s[k].name| < len then 0 else -1) && (reply == 0 ==> path == s[k].name)
      ensures (forall d <- old(list.Contents()) :: |d.name| < len) ==> (reply == 0 <==> old(Good()) != {})
    {
      hide FirstGood, Rotated, Items;
      NoGood(list.Contents(), Good());
      reply, path := GetDisk(len, 0);
    }

    /** The same, in terms of the disks: k is the first that is well and not too full. */
    method ChooseWell(len: int) returns (reply: int, path: string, ghost k: nat)
      requires Valid()
      modifies list.repr
      ensures Valid() && fresh(list.repr - old(list.repr))
      ensures var s := old(list.Contents());
              && k <= |s| && (forall j :: 0 <= j < k ==> old(s[j].errTag == 1 || s[j].usedPer > maxPer))
              && if k == |s| then reply == -1 && list.Contents() == s
                 else
                   && old(s[k].errTag != 1 && s[k].usedPer <= maxPer) && list.Contents() == s[k + 1..] + s[..k + 1]
                   && reply == (if |s[k].name| < len then 0 else -1) && (reply == 0 ==> path == s[k].name)
    {
      hide FirstGood, Rotated, Items, Valid, Good, Usable;
      ghost var s, good := list.Contents(), Good();
      k := FirstGood(s, good);
      FirstIsWell(this, s, k);
      RotatedIs(s, if k < |s| then k + 1 else |s|);
      NoGood(s, good);
      reply, path := Choose(len);
    }

    /** Choices in a row while the disks' health stays as it is: they are the picks of which Fair speaks. */
    method ChooseOften(len: int, n: nat) returns (paths: seq<string>)
      requires Valid() && Good() != {} && forall d <- list.Contents() :: |d.name| < len
      modifies list.repr
      ensures Valid() && fresh(list.repr - old(list.repr)) && Good() == old(Good())
      ensures var picks := Picks(old(list.Contents()), old(Good()), n);
              |picks| == |paths| == n && forall i :: 0 <= i < n ==> paths[i] == picks[i].name
      decreases n
    {
      hide FirstGood, Items, Rotated;
      paths := [];
      ghost var s, good := list.Contents(), Good();
      if n > 0 {
        var reply, path := Choose(len);
        RotatedMember(s, FirstGood(s, good) + 1);
        paths := ChooseOften(len, n - 1);
        paths := [path] + paths;
      }
    }

    /** css_destroy_disk_manager: every disk is visited and taken out. */
    method Destroy() returns (freed: seq<Disk>)
      requires Valid()
      modifies list.repr
      ensures freed == old(list.Contents()) && list.Contents() == []
    {
      hide Items;
      var all := (d: Disk) => true;
      AllDropped(list.Contents(), all);
      freed := list.Foreach(all);
    }
  }

  /** A disk with room whose path is as long as the caller's buffer is turned down, and the call fails, although the other
      disk would do. */
  method LongPath() returns (m: Manager, reply: int, other: Disk)
    ensures fresh(m) && reply == -1 && other in m.Good() && |other.name| < 20
  {
    m := new Manager(["/media/storage-a/v1/", "/media/disk2/"], 85);
    var r0, e := m.list.Get(0);
    var r1, f := m.list.Get(1);
    var d := e[0];
    other := f[0];
    ghost var all := m.list.Contents();
    assert all == [d, other] && d.name == "/media/storage-a/v1/" && other.name == "/media/disk2/";
    assert d in all && other in all && fresh(d) && fresh(other);
    d.usedPer := 10;
    other.usedPer := 10;
    assert d in m.Good() && other in m.Good();
    var path;
    reply, path := m.Choose(20);
  }

  /** What a usable disk is: well, and not too full. */
  lemma FirstIsWell(m: Manager, s: seq<Disk>, k: nat)
    requires s == m.list.Contents() && k == FirstGood(s, m.Good())
    ensures (forall d <- m.Good() :: d in s) && k <= |s| && (k < |s| ==> s[k].errTag != 1 && s[k].usedPer <= m.maxPer)
    ensures forall j :: 0 <= j < k ==> s[j].errTag == 1 || s[j].usedPer > m.maxPer
  {
    assert forall j :: 0 <= j < k ==> s[j] in s && s[j] !in m.Good();
  }

  lemma NoGood<D>(s: seq<D>, good: set<D>)
    requires forall d <- good :: d in s
    ensures FirstGood(s, good) == |s| <==> good == {}
    ensures Rotated(s, |s|) == s && s[..|s|] == s
  {
    var k := FirstGood(s, good);
    if good != {} {
      var d :| d in good;
      assert d in s;
    }
  }

  lemma RotatedMember<D>(s: seq<D>, k: nat)
    requires k <= |s|
    ensures forall d :: d in Rotated(s, k) <==> d in s
  {
    assert s == s[..k] + s[k..];
  }

  /** Looking at one disk. */
  lemma FirstStep<D>(s: seq<D>, m: nat, good: set<D>)
    requires m <= |s|
    ensures m == 0 ==> FirstGood(s[..m], good) == 0 && Rotated(s, 0) == s
    ensures m > 0 && s[0] in good ==> FirstGood(s[..m], good) == 0 && Rotated(s, 1) == s[1..] + [s[0]]
    ensures m > 0 && s[0] !in good ==>
              var t := s[1..] + [s[0]];
              var k := FirstGood(t[..m - 1], good);
              && FirstGood(s[..m], good) == k + 1
              && Rotated(t, k) == Rotated(s, k + 1)
              && (k + 1 < m ==> t[k] == s[k + 1] && Rotated(t, k + 1) == Rotated(s, k + 2))
  {
    if m > 0 {
      var t := s[1..] + [s[0]];
      assert s[..m][1..] == t[..m - 1];
      if s[0] !in good {
        RotatedTwice(s, FirstGood(t[..m - 1], good));
      }
    }
  }

  lemma RotatedTwice<D>(s: seq<D>, k: nat)
    requires k < |s|
    ensures var t := s[1..] + [s[0]];
            && Rotated(t, k) == Rotated(s, k + 1)
            && (k + 1 < |s| ==> t[k] == s[k + 1] && Rotated(t, k + 1) == Rotated(s, k + 2))
  {
  }
}
