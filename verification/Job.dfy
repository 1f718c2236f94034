/** The job scheduler's time windows: how overlapping ones are merged, and what the merged list means. */
module Job {

  /** A recording window: from `start`, for `len` seconds. */
  datatype Window = Window(start: nat, len: nat)
  {
    function End(): nat
    {
      start + len
    }

    predicate Holds(t: int)
    {
      start <= t < End()
    }
  }

  /** Some window of the list holds second `t`. */
  predicate Covers(ws: seq<Window>, t: int)
  {
    ws != [] && (ws[0].Holds(t) || Covers(ws[1..], t))
  }

  /** Sorted, with a gap between each window and the next. */
  predicate Separated(ws: seq<Window>)
  {
    |ws| <= 1 || (ws[0].End() < ws[1].start && Separated(ws[1..]))
  }

  // ---- inserting a window

  function Earlier(a: Window, b: Window): Window
  {
    if a.start > b.start then b else a
  }

  function Later(a: Window, b: Window): Window
  {
    if a.start > b.start then a else b
  }

  /** Two windows that touch, the earlier one first, as one. */
  function Joined(a: Window, b: Window): Window
    requires a.start <= b.start
  {
    if a.End() < b.End() then Window(a.start, b.End() - a.start) else a
  }

  /** The list after `w` has been worked into it, from the head on. */
  function Insert(ws: seq<Window>, w: Window): (r: seq<Window>)
    requires ws != []
    ensures r != []
    decreases |ws|
  {
    var a, b := Earlier(ws[0], w), Later(ws[0], w);
    if a.End() >= b.start then
      if |ws| == 1 then [Joined(a, b)] else Insert([Joined(a, b)] + ws[2..], ws[1])
    else if |ws| == 1 then [a, b]
    else [a] + Insert(ws[1..], b)
  }

  lemma TwoHold(a: Window, b: Window, t: int)
    ensures Earlier(a, b).Holds(t) || Later(a, b).Holds(t) <==> a.Holds(t) || b.Holds(t)
    ensures Earlier(a, b).End() >= Later(a, b).start ==>
              (Joined(Earlier(a, b), Later(a, b)).Holds(t) <==> a.Holds(t) || b.Holds(t))
  {
  }

  /** Inserting a window covers its seconds and those covered before, and no others, whatever the list. */
  lemma {:induction false} InsertCovers(ws: seq<Window>, w: Window, t: int)
    requires ws != []
    ensures Covers(Insert(ws, w), t) <==> Covers(ws, t) || w.Holds(t)
    decreases |ws|
  {
    var a, b := Earlier(ws[0], w), Later(ws[0], w);
    TwoHold(ws[0], w, t);
    if a.End() >= b.start {
      if |ws| > 1 {
        var rest := [Joined(a, b)] + ws[2..];
        InsertCovers(rest, ws[1], t);
        assert rest[1..] == ws[2..] == ws[1..][1..];
      } else {
        assert ws[1..] == [] && [Joined(a, b)][1..] == [];
      }
    } else if |ws| > 1 {
      InsertCovers(ws[1..], b, t);
      assert ([a] + Insert(ws[1..], b))[1..] == Insert(ws[1..], b);
    } else {
      assert ws[1..] == [] && [a, b][1..] == [b] && [b][1..] == [];
    }
  }

  /** What the merging loop keeps between its list and its pending window: one of the two ways of putting the pending
      window and the head in front of the rest is in order. */
  ghost predicate Mergeable(ws: seq<Window>, w: Window)
    requires ws != []
  {
    Separated(ws) || (Separated([w] + ws[1..]) && ws[0].start <= w.start)
  }

  lemma {:induction false} InsertMergeable(ws: seq<Window>, w: Window)
    requires ws != [] && Mergeable(ws, w)
    ensures Separated(Insert(ws, w))
    ensures Insert(ws, w)[0].start == Earlier(ws[0], w).start
    decreases |ws|
  {
    var a, b := Earlier(ws[0], w), Later(ws[0], w);
    assert |ws| > 1 ==> ([w] + ws[1..])[1..] == ws[1..];
    if a.End() >= b.start {
      if |ws| > 1 {
        var rest := [Joined(a, b)] + ws[2..];
        assert [ws[1]] + rest[1..] == ws[1..];
        InsertMergeable(rest, ws[1]);
      }
    } else if |ws| > 1 {
      InsertMergeable(ws[1..], b);
      assert ([a] + Insert(ws[1..], b))[1..] == Insert(ws[1..], b);
    }
  }

  /** Inserting a window into a sorted, strictly separated list leaves one. */
  lemma InsertSeparated(ws: seq<Window>, w: Window)
    requires ws != [] && Separated(ws)
    ensures Separated(Insert(ws, w))
  {
    InsertMergeable(ws, w);
  }

  // ---- the merged list is canonical

  predicate Positive(ws: seq<Window>)
  {
    forall w <- ws :: w.len > 0
  }

  lemma {:induction false} InsertPositive(ws: seq<Window>, w: Window)
    requires ws != [] && Positive(ws) && w.len > 0
    ensures Positive(Insert(ws, w))
    decreases |ws|
  {
    var a, b := Earlier(ws[0], w), Later(ws[0], w);
    if |ws| > 1 {
      if a.End() >= b.start {
        InsertPositive([Joined(a, b)] + ws[2..], ws[1]);
      } else {
        InsertPositive(ws[1..], b);
      }
    }
  }

  /** Nothing before the head's start is covered, nor is the second at its end. */
  lemma {:induction false} CoverBounds(ws: seq<Window>, t: int)
    requires ws != [] && Separated(ws)
    ensures Covers(ws, t) ==> t >= ws[0].start
    ensures Covers(ws[1..], t) ==> t > ws[0].End()
    decreases |ws|
  {
    if |ws| > 1 {
      CoverBounds(ws[1..], t);
    } else {
      assert ws[1..] == [] && !Covers(ws[1..], t);
    }
  }

  lemma HeadCovered(ws: seq<Window>)
    requires ws != [] && Separated(ws) && Positive(ws)
    ensures Covers(ws, ws[0].start) && Covers(ws, ws[0].End() - 1) && !Covers(ws, ws[0].End())
  {
    assert ws[0].len > 0;
    CoverBounds(ws, ws[0].End());
  }

  /** Two separated lists of positive windows that cover the same seconds are equal. */
  lemma {:induction false} Canonical(a: seq<Window>, b: seq<Window>)
    requires Separated(a) && Positive(a) && Separated(b) && Positive(b)
    requires forall t: int :: Covers(a, t) <==> Covers(b, t)
    ensures a == b
    decreases |a|
  {
    if a == [] {
      if b != [] {
        HeadCovered(b);
      }
    } else {
      HeadCovered(a);
      if b != [] {
        SameHead(a, b);
        forall t: int
          ensures Covers(a[1..], t) <==> Covers(b[1..], t)
        {
          CoverBounds(a, t);
          CoverBounds(b, t);
          assert Covers(a, t) <==> Covers(b, t);
        }
        Canonical(a[1..], b[1..]);
        assert a == [a[0]] + a[1..] && b == [b[0]] + b[1..];
      }
    }
  }

  lemma SameHead(a: seq<Window>, b: seq<Window>)
    requires a != [] && Separated(a) && Positive(a) && b != [] && Separated(b) && Positive(b)
    requires forall t: int :: Covers(a, t) <==> Covers(b, t)
    ensures a[0] == b[0]
  {
    HeadCovered(a);
    HeadCovered(b);
    CoverBounds(a, b[0].start);
    CoverBounds(b, a[0].start);
    assert Covers(b, a[0].End() - 1) && !Covers(b, a[0].End());
    assert Covers(a, b[0].End() - 1) && !Covers(a, b[0].End());
    assert a[0].start == b[0].start;
    if a[0].End() < b[0].End() {
      assert b[0].Holds(a[0].End());
    } else if b[0].End() < a[0].End() {
      assert a[0].Holds(b[0].End());
    }
  }

  // ---- folding in a job's windows

  /** The list that comes of taking the first window and inserting the others in turn. */
  function Fold(ws: seq<Window>): (r: seq<Window>)
    requires ws != []
    ensures r != []
  {
    if |ws| == 1 then ws else Insert(Fold(ws[..|ws| - 1]), ws[|ws| - 1])
  }

  lemma {:induction false} CoversMember(ws: seq<Window>, t: int)
    ensures Covers(ws, t) <==> exists w :: w in ws && w.Holds(t)
  {
    if ws != [] {
      CoversMember(ws[1..], t);
      assert ws == [ws[0]] + ws[1..];
    }
  }

  /** Covered are the seconds that some window holds, from its start on for its length. */
  lemma CoversSeconds(ws: seq<Window>, t: int)
    ensures Covers(ws, t) <==> exists w :: w in ws && w.start <= t < w.start + w.len
  {
    CoversMember(ws, t);
    if w :| w in ws && w.start <= t < w.start + w.len {
      assert w.Holds(t);
    }
  }

  /** Separated are windows each of which starts behind the end of the one before. */
  lemma {:induction false} SeparatedGaps(ws: seq<Window>)
    ensures Separated(ws) <==> forall i :: 0 < i < |ws| ==> ws[i - 1].start + ws[i - 1].len < ws[i].start
  {
    if |ws| > 1 {
      var rest := ws[1..];
      SeparatedGaps(rest);
      assert forall i :: 0 < i < |rest| ==> rest[i] == ws[i + 1] && rest[i - 1] == ws[i];
      if Separated(ws) {
        forall i | 0 < i < |ws|
          ensures ws[i - 1].start + ws[i - 1].len < ws[i].start
        {
          assert i > 1 ==> rest[i - 1] == ws[i] && rest[i - 2] == ws[i - 1];
        }
      }
    }
  }

  lemma {:induction false} FoldMeans(ws: seq<Window>)
    requires ws != []
    ensures Separated(Fold(ws)) && (Positive(ws) ==> Positive(Fold(ws)))
    ensures forall t: int :: Covers(Fold(ws), t) <==> Covers(ws, t)
  {
    var n := |ws| - 1;
    if n > 0 {
      FoldMeans(ws[..n]);
      InsertSeparated(Fold(ws[..n]), ws[n]);
      if Positive(ws) {
        InsertPositive(Fold(ws[..n]), ws[n]);
      }
      forall t: int
        ensures Covers(Fold(ws), t) <==> Covers(ws, t)
      {
        InsertCovers(Fold(ws[..n]), ws[n], t);
        CoversMember(ws, t);
        CoversMember(ws[..n], t);
        assert ws == ws[..n] + [ws[n]];
      }
    }
  }

  /** The merged list does not depend on the order in which windows come, nor on repetitions. */
  lemma OrderIndependent(a: seq<Window>, b: seq<Window>)
    requires a != [] && b != [] && Positive(a) && Positive(b)
    requires forall w :: w in a <==> w in b
    ensures Fold(a) == Fold(b)
  {
    FoldMeans(a);
    FoldMeans(b);
    forall t: int
      ensures Covers(Fold(a), t) <==> Covers(Fold(b), t)
    {
      CoversMember(a, t);
      CoversMember(b, t);
    }
    Canonical(Fold(a), Fold(b));
  }

  // ---- two lists

  /** The list after the windows of another have been worked into it, one by one. */
  function InsertAll(ws: seq<Window>, vs: seq<Window>): (r: seq<Window>)
    requires ws != []
    ensures r != []
  {
    if vs == [] then ws else Insert(InsertAll(ws, vs[..|vs| - 1]), vs[|vs| - 1])
  }

  lemma {:induction false} InsertAllMeans(ws: seq<Window>, vs: seq<Window>)
    requires ws != [] && Separated(ws)
    ensures Separated(InsertAll(ws, vs)) && (Positive(ws) && Positive(vs) ==> Positive(InsertAll(ws, vs)))
    ensures forall t: int :: Covers(InsertAll(ws, vs), t) <==> Covers(ws, t) || Covers(vs, t)
  {
    if vs != [] {
      var n := |vs| - 1;
      InsertAllMeans(ws, vs[..n]);
      InsertSeparated(InsertAll(ws, vs[..n]), vs[n]);
      if Positive(ws) && Positive(vs) {
        InsertPositive(InsertAll(ws, vs[..n]), vs[n]);
      }
      forall t: int
        ensures Covers(InsertAll(ws, vs), t) <==> Covers(ws, t) || Covers(vs, t)
      {
        InsertCovers(InsertAll(ws, vs[..n]), vs[n], t);
        CoversMember(vs, t);
        CoversMember(vs[..n], t);
        assert vs == vs[..n] + [vs[n]];
      }
    }
  }

  /** Two jobs of one channel may come in either order. */
  lemma MergeCommutes(ws: seq<Window>, vs: seq<Window>)
    requires ws != [] && vs != [] && Separated(ws) && Separated(vs) && Positive(ws) && Positive(vs)
    ensures InsertAll(ws, vs) == InsertAll(vs, ws)
  {
    InsertAllMeans(ws, vs);
    InsertAllMeans(vs, ws);
    Canonical(InsertAll(ws, vs), InsertAll(vs, ws));
  }

  // ---- which windows a job uses

  /** A trigger of the job description: its window, and whether its calendar asks for work today. */
  datatype Entry = Entry(window: Window, needWork: bool)

  function Wanted(es: seq<Entry>): seq<Window>
  {
    if es == [] then [] else (if es[0].needWork then [es[0].window] else []) + Wanted(es[1..])
  }

  /** The first trigger becomes the list's head before its calendar is looked at. */
  function Used(es: seq<Entry>): seq<Window>
    requires es != []
  {
    [es[0].window] + Wanted(es[1..])
  }

  lemma {:induction false} WantedMember(es: seq<Entry>, w: Window)
    ensures w in Wanted(es) <==> exists i :: 0 <= i < |es| && es[i].needWork && es[i].window == w
  {
    if es != [] {
      WantedMember(es[1..], w);
      if i :| 0 <= i < |es| && es[i].needWork && es[i].window == w {
        assert i > 0 ==> es[1..][i - 1] == es[i];
      }
      if i :| 0 <= i < |es| - 1 && es[1..][i].needWork && es[1..][i].window == w {
        assert es[i + 1] == es[1..][i];
      }
    }
  }

  /** Used are the windows of the first trigger and of all that their calendars ask for. */
  lemma UsedMember(es: seq<Entry>, w: Window)
    requires es != []
    ensures w in Used(es) <==> exists i :: 0 <= i < |es| && (i == 0 || es[i].needWork) && es[i].window == w
  {
    WantedMember(es[1..], w);
    if i :| 0 <= i < |es| - 1 && es[1..][i].needWork && es[1..][i].window == w {
      assert es[i + 1] == es[1..][i];
    }
    if i :| 0 < i < |es| && es[i].needWork && es[i].window == w {
      assert es[1..][i - 1] == es[i];
    }
    if w in Used(es) && w != es[0].window {
      assert w in Wanted(es[1..]);
    }
  }

  /** They hold the seconds of the first trigger and of all that are asked for. */
  lemma EntriesHold(es: seq<Entry>, t: int)
    requires es != []
    ensures Covers(Used(es), t) <==>
            exists i :: && 0 <= i < |es| && (i == 0 || es[i].needWork)
                        && es[i].window.start <= t < es[i].window.start + es[i].window.len
  {
    hide Covers, Used;
    CoversSeconds(Used(es), t);
    if w :| w in Used(es) && w.start <= t < w.start + w.len {
      UsedMember(es, w);
    }
    if i :| 0 <= i < |es| && (i == 0 || es[i].needWork) && es[i].window.start <= t < es[i].window.start + es[i].window.len {
      UsedMember(es, es[i].window);
    }
  }

  /** So a job records what its calendars ask for exactly when its first trigger is wanted too, or adds nothing. */
  lemma FirstTriggerIff(es: seq<Entry>)
    requires es != []
    ensures (forall t: int :: Covers(Fold(Used(es)), t) <==> Covers(Wanted(es), t))
       <==> es[0].needWork || forall t: int :: es[0].window.Holds(t) ==> Covers(Wanted(es[1..]), t)
  {
    FoldMeans(Used(es));
    var w, rest := es[0].window, Wanted(es[1..]);
    assert Used(es)[1..] == rest;
    if es[0].needWork {
      assert Wanted(es) == Used(es);
    } else {
      assert Wanted(es) == rest;
      forall t: int
        ensures (Covers(Fold(Used(es)), t) <==> Covers(Wanted(es), t)) <==> (w.Holds(t) ==> Covers(rest, t))
      {
        assert Covers(Used(es), t) <==> w.Holds(t) || Covers(rest, t);
      }
      if forall t: int :: Covers(Fold(Used(es)), t) <==> Covers(Wanted(es), t) {
        forall t: int | w.Holds(t)
          ensures Covers(rest, t)
        {
          assert Covers(Fold(Used(es)), t) <==> Covers(Wanted(es), t);
        }
      }
    }
  }

  /** A job whose only trigger is for a rest day is recorded all the same. */
  lemma RestDayRecorded()
    ensures var es := [Entry(Window(18000, 7200), false)];
            Covers(Fold(Used(es)), 18000) && !Covers(Wanted(es), 18000)
  {
    assert Wanted([Entry(Window(18000, 7200), false)][1..]) == [];
  }
}
