/** What the loop that merges a window into a list of triggers does to windows and to nodes, as functions of both. */
module MergeWindows {
  import opened Job

  // ---- one merge, on values: which nodes stay

  predicate Touch(a: Window, b: Window)
  {
    Earlier(a, b).End() >= Later(a, b).start
  }

  /** The node at which the pending window is first taken over, or the length. */
  function TouchAt(ws: seq<Window>, w: Window): (k: nat)
    ensures k <= |ws|
  {
    if ws == [] || Touch(ws[0], w) then 0 else 1 + TouchAt(ws[1..], Later(ws[0], w))
  }

  /** The nodes of the list that are left when `w` has been worked in. */
  function Kept(L: seq<nat>, ws: seq<Window>, w: Window): (r: seq<nat>)
    requires |L| == |ws| > 0
    ensures |r| > 0 && r[0] == L[0] && forall x <- r :: x in L
    decreases |L|
  {
    if Touch(ws[0], w) then
      if |L| == 1 then L else Kept([L[0]] + L[2..], [Joined(Earlier(ws[0], w), Later(ws[0], w))] + ws[2..], ws[1])
    else if |L| == 1 then L
    else [L[0]] + Kept(L[1..], ws[1..], Later(ws[0], w))
  }

  /** Whether a node is left over, to become the last. */
  predicate Ends(ws: seq<Window>, w: Window)
    requires ws != []
    decreases |ws|
  {
    if Touch(ws[0], w) then
      |ws| > 1 && Ends([Joined(Earlier(ws[0], w), Later(ws[0], w))] + ws[2..], ws[1])
    else |ws| == 1 || Ends(ws[1..], Later(ws[0], w))
  }

  /** A window that comes before a list and apart from it: every node takes over the window before, and one is left over. */
  lemma {:induction false} Shift(L: seq<nat>, ws: seq<Window>, w: Window)
    requires |L| == |ws| > 0 && Separated([w] + ws)
    ensures Insert(ws, w) == [w] + ws && Kept(L, ws, w) == L && Ends(ws, w) && TouchAt(ws, w) == |ws|
    decreases |L|
  {
    assert ([w] + ws)[1..] == ws;
    if |L| > 1 {
      assert ws == [ws[0]] + ws[1..];
      Shift(L[1..], ws[1..], ws[0]);
      assert L == [L[0]] + L[1..];
    }
  }

  /** A window that is taken over, by a list that the rest of follows apart. */
  lemma ShiftBehind(x: nat, b: Window, L: seq<nat>, ws: seq<Window>, w: Window)
    requires |L| == |ws| && Separated([b, w] + ws)
    ensures Insert([b] + ws, w) == [b, w] + ws && Kept([x] + L, [b] + ws, w) == [x] + L && Ends([b] + ws, w)
  {
    assert ([b, w] + ws)[1..] == [w] + ws && ([b, w] + ws)[1] == w;
    assert ([b] + ws)[1..] == ws && ([x] + L)[1..] == L;
    if ws == [] {
      assert L == [];
    } else {
      Shift(L, ws, w);
    }
  }

  predicate Within(w: Window, v: Window)
  {
    v.start <= w.start && w.End() <= v.End()
  }

  /** Working in a window that lies within the k-th one changes no window; the node behind the k-th is given up for a new
      one at the end. */
  lemma {:induction false} Again(L: seq<nat>, ws: seq<Window>, w: Window, k: nat)
    requires |L| == |ws| && k < |ws| && Separated(ws) && Within(w, ws[k])
    ensures Insert(ws, w) == ws && TouchAt(ws, w) == k
    ensures Kept(L, ws, w) == if k + 1 < |L| then L[..k + 1] + L[k + 2..] else L
    ensures Ends(ws, w) == (k + 1 < |L|)
    decreases |L|
  {
    if k == 0 {
      AgainHere(L, ws, w);
    } else {
      Starts(ws, k);
      assert !Touch(ws[0], w) && Later(ws[0], w) == w;
      hide Touch;
      Again(L[1..], ws[1..], w, k - 1);
      Front(ws);
      Front(L);
      if k + 1 < |L| {
        assert [L[0]] + (L[1..][..k] + L[1..][k + 1..]) == L[..k + 1] + L[k + 2..];
      }
    }
  }

  lemma Front<T>(s: seq<T>)
    requires s != []
    ensures [s[0]] + s[1..] == s
  {
  }

  lemma AgainHere(L: seq<nat>, ws: seq<Window>, w: Window)
    requires |L| == |ws| > 0 && Separated(ws) && Within(w, ws[0])
    ensures Insert(ws, w) == ws && TouchAt(ws, w) == 0
    ensures Kept(L, ws, w) == if 1 < |L| then L[..1] + L[2..] else L
    ensures Ends(ws, w) == (1 < |L|)
  {
    var a, b := Earlier(ws[0], w), Later(ws[0], w);
    assert Joined(a, b) == ws[0] && Touch(ws[0], w);
    if |L| > 1 {
      var rs, bs := L[2..], ws[2..];
      assert [ws[0], ws[1]] + bs == ws && L[..1] == [L[0]];
      ShiftBehind(L[0], ws[0], rs, bs, ws[1]);
      hide Separated;
      Unfold(L, ws, w);
    } else {
      assert [ws[0]] == ws;
    }
  }

  /** One step of the three functions. */
  lemma Unfold(L: seq<nat>, ws: seq<Window>, w: Window)
    requires |L| == |ws| > 1 && Touch(ws[0], w)
    ensures var c := [Joined(Earlier(ws[0], w), Later(ws[0], w))] + ws[2..];
            && Insert(ws, w) == Insert(c, ws[1]) && Ends(ws, w) == Ends(c, ws[1])
            && Kept(L, ws, w) == Kept([L[0]] + L[2..], c, ws[1])
  {
  }

  lemma {:induction false} Starts(ws: seq<Window>, k: nat)
    requires Separated(ws) && 0 < k < |ws|
    ensures ws[0].End() < ws[k].start
  {
    if k > 1 {
      Starts(ws[1..], k - 1);
    }
  }

  /** How many windows of a list a window before them takes over in turn. */
  function Absorbed(b: Window, ts: seq<Window>): (t: nat)
    ensures t <= |ts|
    decreases |ts|
  {
    if ts != [] && b.start <= ts[0].start <= b.End() then 1 + Absorbed(Joined(b, ts[0]), ts[1..]) else 0
  }

  /** What then is left. */
  function Settled(b: Window, ts: seq<Window>): (r: seq<Window>)
    ensures r != []
    decreases |ts|
  {
    if ts != [] && b.start <= ts[0].start <= b.End() then Settled(Joined(b, ts[0]), ts[1..]) else [b] + ts
  }

  predicate Behind(b: Window, ts: seq<Window>)
  {
    Separated(ts) && (ts != [] ==> b.start <= ts[0].start)
  }

  /** Working in a window that lies within b, when b itself may touch those behind it. */
  lemma {:induction false} Settling(x: nat, b: Window, T: seq<nat>, ts: seq<Window>, w: Window)
    requires |T| == |ts| && Behind(b, ts) && Within(w, b)
    ensures Insert([b] + ts, w) == Settled(b, ts) && Ends([b] + ts, w) == (Absorbed(b, ts) < |T|)
    ensures Kept([x] + T, [b] + ts, w) == [x] + if Absorbed(b, ts) < |T| then T[Absorbed(b, ts) + 1..] else []
    decreases |T|
  {
    var ws, L := [b] + ts, [x] + T;
    assert Joined(Earlier(b, w), Later(b, w)) == b;
    if ts == [] {
      assert ws == [b] && L == [x] && [x] + [] == L && [b] + ts == [b];
    } else {
      assert ws[2..] == ts[1..] && L[2..] == T[1..] && ws[1] == ts[0];
      if ts[0].start <= b.End() {
        var c := Joined(b, ts[0]);
        Taking(x, b, T[1..], ts[1..], ts[0]);
        Settling(x, c, T[1..], ts[1..], ts[0]);
      } else {
        assert [b, ts[0]] + ts[1..] == [b] + ts;
        assert ([b] + ts)[1..] == ts;
        ShiftBehind(x, b, T[1..], ts[1..], ts[0]);
      }
    }
  }

  /** Taking over a window is as good as having it. */
  lemma Taking(x: nat, b: Window, T: seq<nat>, ts: seq<Window>, v: Window)
    requires |T| == |ts| && b.start <= v.start <= b.End()
    ensures var c := Joined(b, v);
            && Insert([b] + ts, v) == Insert([c] + ts, v) && Ends([b] + ts, v) == Ends([c] + ts, v)
            && Kept([x] + T, [b] + ts, v) == Kept([x] + T, [c] + ts, v)
  {
    hide Insert, Kept, Ends, Touch;
    var c := Joined(b, v);
    assert ([b] + ts)[1..] == ts == ([c] + ts)[1..];
    TakingOn([x] + T, [b] + ts, [c] + ts, v);
  }

  lemma TakingOn(L: seq<nat>, ws: seq<Window>, vs: seq<Window>, v: Window)
    requires |L| == |ws| == |vs| > 0 && ws[0].start <= v.start <= ws[0].End() && ws[1..] == vs[1..]
    requires vs[0] == Joined(ws[0], v)
    ensures Insert(ws, v) == Insert(vs, v) && Ends(ws, v) == Ends(vs, v) && Kept(L, ws, v) == Kept(L, vs, v)
  {
    var c := vs[0];
    assert Joined(Earlier(c, v), Later(c, v)) == c && Touch(ws[0], v) && Touch(c, v);
    if |L| > 1 {
      hide Insert, Kept, Ends, Touch;
      assert ws[2..] == ws[1..][1..] && vs[2..] == vs[1..][1..] && ws[1] == ws[1..][0] && vs[1] == vs[1..][0];
      Unfold(L, ws, v);
      Unfold(L, vs, v);
    }
  }

  /** A window that a separated list first takes over at its last window touches no other. */
  lemma {:induction false} TouchLast(ws: seq<Window>, w: Window)
    requires ws != [] && Separated(ws) && TouchAt(ws, w) + 1 == |ws|
    ensures var n := |ws| - 1;
            Touch(ws[n], w) && Insert(ws, w) == ws[..n] + [Joined(Earlier(ws[n], w), Later(ws[n], w))]
  {
    if |ws| == 1 {
      assert ws[..0] == [];
    } else {
      var n := |ws| - 1;
      FrontApart(ws);
      TouchLast(ws[1..], w);
      assert ws[..n] == [ws[0]] + ws[1..][..n - 1];
    }
  }

  lemma FrontApart(ws: seq<Window>)
    requires |ws| > 1 && Separated(ws)
    ensures TouchAt(ws[1..], ws[0]) == |ws| - 1
  {
    assert [ws[0]] + ws[1..] == ws;
    Shift(seq(|ws| - 1, i => 0), ws[1..], ws[0]);
  }

  /** What is left of a list whose first window takes over some of those behind it. */
  lemma {:induction false} SettledIs(b: Window, ts: seq<Window>)
    requires Behind(b, ts)
    ensures var t, r := Absorbed(b, ts), Settled(b, ts);
            && |r| == 1 + |ts| - t && r[1..] == ts[t..] && Separated(r) && r[0].start == b.start && r[0].End() >= b.End()
            && forall i :: 0 <= i < t ==> Within(ts[i], r[0])
    decreases |ts|
  {
    if ts != [] && b.start <= ts[0].start <= b.End() {
      var c := Joined(b, ts[0]);
      SettledIs(c, ts[1..]);
      var t := Absorbed(c, ts[1..]);
      assert ts[1..][t..] == ts[t + 1..];
      forall i | 0 <= i < t + 1
        ensures Within(ts[i], Settled(b, ts)[0])
      {
        if i > 0 {
          assert ts[1..][i - 1] == ts[i];
        }
      }
    } else {
      assert ts[0..] == ts && ([b] + ts)[1..] == ts;
    }
  }

  /** Behind windows that are apart, a list is worked on as if it stood alone. */
  lemma {:induction false} InsertBehind(zs: seq<Window>, ws: seq<Window>, w: Window)
    requires ws != [] && Separated(zs + ws) && ws[0].start <= w.start
    ensures Insert(zs + ws, w) == zs + Insert(ws, w)
    decreases |zs|
  {
    if zs == [] {
      assert zs + ws == ws;
    } else {
      var all := zs + ws;
      assert all[1..] == zs[1..] + ws;
      Starts(all, |zs|);
      assert all[|zs|] == ws[0];
      InsertBehind(zs[1..], ws, w);
      assert zs == [zs[0]] + zs[1..];
      assert Insert(all, w) == [zs[0]] + Insert(zs[1..] + ws, w);
    }
  }

  lemma {:induction false} InsertAllFront(ws: seq<Window>, v: Window, vs: seq<Window>)
    requires ws != []
    ensures InsertAll(ws, [v] + vs) == InsertAll(Insert(ws, v), vs)
    decreases |vs|
  {
    hide Insert;
    var n, all := |vs| - 1, [v] + vs;
    if vs == [] {
      assert all[..0] == [] && all == [v];
    } else {
      InsertAllFront(ws, v, vs[..n]);
      assert all[..n + 1] == [v] + vs[..n];
    }
  }

  lemma {:induction false} SeparatedSum(zs: seq<Window>, ws: seq<Window>)
    requires ws != [] && Separated(ws) && Separated(zs) && (zs != [] ==> zs[|zs| - 1].End() < ws[0].start)
    ensures Separated(zs + ws)
    decreases |zs|
  {
    if zs == [] {
      assert zs + ws == ws;
    } else {
      var all := zs + ws;
      assert all[1..] == zs[1..] + ws && all[0] == zs[0] && all[1] == if |zs| > 1 then zs[1] else ws[0];
      SeparatedSum(zs[1..], ws);
    }
  }

  lemma {:induction false} SeparatedParts(zs: seq<Window>, ws: seq<Window>)
    requires Separated(zs + ws)
    ensures Separated(zs) && Separated(ws) && (zs != [] && ws != [] ==> zs[|zs| - 1].End() < ws[0].start)
    decreases |zs|
  {
    if zs == [] {
      assert zs + ws == ws;
    } else {
      assert (zs + ws)[1..] == zs[1..] + ws;
      SeparatedParts(zs[1..], ws);
    }
  }

  lemma {:induction false} InsertAllApart(ws: seq<Window>, vs: seq<Window>)
    requires ws != [] && Separated(ws + vs)
    ensures InsertAll(ws, vs) == ws + vs
    decreases |vs|
  {
    if vs == [] {
      assert ws + vs == ws;
    } else {
      var n := |ws| - 1;
      assert ws + vs == (ws + [vs[0]]) + vs[1..] && vs == [vs[0]] + vs[1..] && ws == ws[..n] + [ws[n]];
      SeparatedParts(ws + [vs[0]], vs[1..]);
      SeparatedParts(ws, vs);
      InsertBehind(ws[..n], [ws[n]], vs[0]);
      assert Insert([ws[n]], vs[0]) == [ws[n], vs[0]];
      assert ws[..n] + [ws[n], vs[0]] == ws + [vs[0]];
      InsertAllFront(ws, vs[0], vs[1..]);
      InsertAllApart(ws + [vs[0]], vs[1..]);
    }
  }

  lemma SettlesApart(zs: seq<Window>, b: Window, ts: seq<Window>)
    requires Separated(zs + [b]) && Separated(ts) && ts != [] && b.End() < ts[0].start
    ensures InsertAll(zs + [b, ts[0]], ts[1..]) == zs + ([b] + ts)
  {
    SeparatedParts(zs, [b]);
    assert ([b] + ts)[1..] == ts;
    SeparatedSum(zs, [b] + ts);
    hide Separated, InsertAll;
    assert zs + ([b] + ts) == zs + [b, ts[0]] + ts[1..];
    InsertAllApart(zs + [b, ts[0]], ts[1..]);
  }

  /** Working in windows behind the last one settles them with it. */
  lemma {:induction false} InsertAllSettles(zs: seq<Window>, b: Window, ts: seq<Window>)
    requires Separated(zs + [b]) && Behind(b, ts)
    ensures InsertAll(zs + [b], ts) == zs + Settled(b, ts)
    decreases |ts|
  {
    var ws := zs + [b];
    if ts != [] {
      assert ts == [ts[0]] + ts[1..];
      InsertAllFront(ws, ts[0], ts[1..]);
      SeparatedParts(zs, [b]);
      InsertBehind(zs, [b], ts[0]);
      if ts[0].start <= b.End() {
        var c := Joined(b, ts[0]);
        assert Insert([b], ts[0]) == [c];
        SeparatedSum(zs, [c]);
        InsertAllSettles(zs, c, ts[1..]);
      } else {
        assert Insert([b], ts[0]) == [b, ts[0]];
        SettlesApart(zs, b, ts);
      }
    } else {
      assert [b] + ts == [b];
    }
  }

  /** Some window of the list takes in `w`. */
  ghost predicate Covered(w: Window, ws: seq<Window>)
  {
    exists k :: 0 <= k < |ws| && Within(w, ws[k])
  }

  lemma {:induction false} InsertAllWithin(ws: seq<Window>, vs: seq<Window>)
    requires ws != [] && Separated(ws) && forall v <- vs :: Covered(v, ws)
    ensures InsertAll(ws, vs) == ws
  {
    if vs != [] {
      var n := |vs| - 1;
      InsertAllWithin(ws, vs[..n]);
      assert Covered(vs[n], ws);
      var k :| 0 <= k < |ws| && Within(vs[n], ws[k]);
      Again(seq(|ws|, i => 0), ws, vs[n], k);
    }
  }

  // ---- the two lists

  /** A second list that has become part of the first survives its next merge if that merge's window touches the last one
      before it and no other, and at most one window of the rest is not taken over by it. */
  predicate SurvivesJoint(ws: seq<Window>, vs: seq<Window>)
    requires ws != [] && vs != []
  {
    var front := Insert(ws, vs[0]);
    TouchAt(ws, vs[0]) + 1 == |ws| && |vs| - 1 - Absorbed(front[|front| - 1], vs[1..]) <= 1
  }

  /** No linked node is freed: as long as every window touches the list, and what happens when one does not. */
  predicate Survives(ws: seq<Window>, vs: seq<Window>)
    requires ws != []
    decreases |vs|
  {
    vs == [] || if TouchAt(ws, vs[0]) < |ws| then Survives(Insert(ws, vs[0]), vs[1..])
                else |vs| == 1 || SurvivesJoint(Insert(ws, vs[0]), vs[1..])
  }

  lemma CoveredSame(ws: seq<Window>, w: Window)
    requires ws != [] && Separated(ws) && Covered(w, ws)
    ensures Insert(ws, w) == ws && TouchAt(ws, w) < |ws|
  {
    var k :| 0 <= k < |ws| && Within(w, ws[k]);
    Again(seq(|ws|, i => 0), ws, w, k);
  }

  lemma {:induction false} SurvivesWithin(ws: seq<Window>, vs: seq<Window>)
    requires ws != [] && Separated(ws) && forall v <- vs :: Covered(v, ws)
    ensures Survives(ws, vs)
  {
    if vs != [] {
      assert vs[0] in vs && forall v <- vs[1..] :: v in vs;
      CoveredSame(ws, vs[0]);
      SurvivesWithin(ws, vs[1..]);
    }
  }

  // ---- the same condition, on the two lists as they are at the start

  /** The window touches none of the list. */
  predicate Alone(ws: seq<Window>, v: Window)
  {
    forall k :: 0 <= k < |ws| ==> !Touch(ws[k], v)
  }

  /** The window touches the last one of the list, and lies behind the others. */
  predicate AtLast(ws: seq<Window>, v: Window)
    requires ws != []
  {
    Touch(ws[|ws| - 1], v) && (|ws| > 1 ==> ws[|ws| - 2].End() < v.start)
  }

  predicate HarmlessAt(ws: seq<Window>, vs: seq<Window>, i: nat)
    requires ws != [] && i + 1 < |vs|
  {
    Alone(ws, vs[i]) ==> AtLast(ws, vs[i + 1]) && vs[|vs| - 2].start <= ws[|ws| - 1].End()
  }

  /** Behind a window that touches none of the first list comes nothing, or one that touches the last of that list only, and
      at most one window starts behind the end of that list. */
  predicate Harmless(ws: seq<Window>, vs: seq<Window>)
    requires ws != []
  {
    forall i {:trigger HarmlessAt(ws, vs, i)} :: 0 <= i < |vs| - 1 ==> HarmlessAt(ws, vs, i)
  }

  /** TouchAt looks for the first window that is touched. */
  lemma {:induction false} TouchAtIs(ws: seq<Window>, w: Window)
    requires ws != [] && Separated(ws)
    ensures TouchAt(ws, w) == |ws| <==> Alone(ws, w)
    ensures TouchAt(ws, w) + 1 == |ws| <==> AtLast(ws, w)
  {
    if Touch(ws[0], w) {
      if |ws| > 1 {
        Starts(ws, |ws| - 1);
        if |ws| > 2 {
          Starts(ws, |ws| - 2);
        }
      }
    } else if |ws| == 1 {
      NothingAt(w);
    } else if w.start <= ws[0].start {
      FrontApart(ws);
      assert Later(ws[0], w) == ws[0];
      forall k | 0 <= k < |ws|
        ensures !Touch(ws[k], w)
      {
        if k > 0 {
          Starts(ws, k);
        }
      }
    } else {
      TouchAtIs(ws[1..], w);
      assert Later(ws[0], w) == w;
      assert forall k :: 0 < k < |ws| ==> ws[k] == ws[1..][k - 1];
    }
  }

  lemma NothingAt(w: Window)
    ensures TouchAt([], w) == 0
  {
  }

  lemma TouchTwo(a: Window, b: Window, v: Window)
    ensures Touch(Earlier(a, b), v) || Touch(Later(a, b), v) <==> Touch(a, v) || Touch(b, v)
    ensures Touch(a, b) ==> (Touch(Joined(Earlier(a, b), Later(a, b)), v) <==> Touch(a, v) || Touch(b, v))
  {
  }

  predicate Touches(ws: seq<Window>, v: Window)
  {
    ws != [] && (Touch(ws[0], v) || Touches(ws[1..], v))
  }

  lemma {:induction false} TouchesIs(ws: seq<Window>, v: Window)
    ensures Touches(ws, v) <==> !Alone(ws, v)
  {
    if ws != [] {
      TouchesIs(ws[1..], v);
      assert forall k :: 0 < k < |ws| ==> ws[k] == ws[1..][k - 1];
    }
  }

  /** A window touches the list after another has been worked in if it touches the list or the other. */
  lemma {:induction false} InsertTouches(ws: seq<Window>, w: Window, v: Window)
    requires ws != []
    ensures Touches(Insert(ws, w), v) <==> Touches(ws, v) || Touch(w, v)
    decreases |ws|
  {
    var a, b := Earlier(ws[0], w), Later(ws[0], w);
    TouchTwo(ws[0], w, v);
    hide Touch;
    if a.End() >= b.start {
      assert Touch(ws[0], w) by {
        TouchesAt(ws[0], w);
      }
      if |ws| > 1 {
        var rest := [Joined(a, b)] + ws[2..];
        InsertTouches(rest, ws[1], v);
        assert rest[1..] == ws[2..] == ws[1..][1..];
      } else {
        assert ws[1..] == [] && [Joined(a, b)][1..] == [];
      }
    } else if |ws| > 1 {
      InsertTouches(ws[1..], b, v);
      assert ([a] + Insert(ws[1..], b))[1..] == Insert(ws[1..], b);
    } else {
      assert ws[1..] == [] && [a, b][1..] == [b] && [b][1..] == [];
    }
  }

  lemma TouchesAt(a: Window, b: Window)
    ensures Touch(a, b) <==> Earlier(a, b).End() >= Later(a, b).start
  {
  }

  function Latest(a: nat, b: nat): nat
  {
    if a < b then b else a
  }

  /** To a window behind `w`, the last window looks the same before and after those behind x have been taken over. */
  lemma {:induction false} SettledLast(x: Window, c: Window, ts: seq<Window>, w: Window, v: Window)
    requires Separated([x] + ts) && c.End() == Latest(x.End(), w.End()) && c.start <= x.start <= w.End() < v.start
    ensures var r, ws := Settled(c, ts), [x] + ts;
            (AtLast(r, v) <==> AtLast(ws, v)) && r[|r| - 1].End() == Latest(ws[|ws| - 1].End(), w.End())
    decreases |ts|
  {
    var ws := [x] + ts;
    if ts != [] {
      assert ws[1..] == ts == [ts[0]] + ts[1..] && ws[1] == ts[0];
      if c.start <= ts[0].start <= c.End() {
        SettledLast(ts[0], Joined(c, ts[0]), ts[1..], w, v);
      } else if |ts| > 1 {
        Starts(ts, |ts| - 1);
      }
    }
  }

  /** To a window behind `w`, the last window looks the same before and after `w` has been worked in. */
  lemma {:induction false} InsertLast(ws: seq<Window>, w: Window, v: Window)
    requires ws != [] && Separated(ws) && w.End() < v.start
    ensures var r := Insert(ws, w);
            (AtLast(r, v) <==> AtLast(ws, v)) && r[|r| - 1].End() == Latest(ws[|ws| - 1].End(), w.End())
  {
    assert ws == [ws[0]] + ws[1..];
    if Touch(ws[0], w) {
      InsertSettled(ws, w);
      SettledLast(ws[0], Joined(Earlier(ws[0], w), Later(ws[0], w)), ws[1..], w, v);
    } else if |ws| == 1 {
    } else if w.start <= ws[0].start {
      Starts(ws, |ws| - 1);
      InsertFront(ws, w);
    } else {
      InsertLast(ws[1..], w, v);
    }
  }

  lemma InsertFront(ws: seq<Window>, w: Window)
    requires ws != [] && Separated(ws) && w.End() < ws[0].start
    ensures Insert(ws, w) == [w] + ws
  {
    assert ([w] + ws)[1..] == ws;
    Shift(seq(|ws|, i => 0), ws, w);
  }

  lemma InsertSettled(ws: seq<Window>, w: Window)
    requires ws != [] && Separated(ws) && Touch(ws[0], w)
    ensures Insert(ws, w) == Settled(Joined(Earlier(ws[0], w), Later(ws[0], w)), ws[1..])
  {
    var c := Joined(Earlier(ws[0], w), Later(ws[0], w));
    Settling(0, c, seq(|ws| - 1, i => 0), ws[1..], w);
    assert Joined(Earlier(c, w), Later(c, w)) == c && Touch(c, w);
    assert ([c] + ws[1..])[1..] == ws[1..];
    assert |ws| > 1 ==> ([c] + ws[1..])[2..] == ws[2..] && ([c] + ws[1..])[1] == ws[1];
  }

  /** How many windows are not taken over by one that ends where the list or the window y does. */
  lemma {:induction false} AbsorbedMost(b: Window, y: Window, ts: seq<Window>, end: nat)
    requires Separated([y] + ts) && b.End() == Latest(end, y.End()) && b.start <= y.start
    ensures |ts| - Absorbed(b, ts) <= 1 <==> |ts| <= 1 || ts[|ts| - 2].start <= end
    decreases |ts|
  {
    if ts != [] {
      assert ([y] + ts)[1..] == ts == [ts[0]] + ts[1..] && ([y] + ts)[1] == ts[0];
      if ts[0].start <= b.End() {
        AbsorbedMost(Joined(b, ts[0]), ts[0], ts[1..], end);
      } else if |ts| > 2 {
        Starts(ts, |ts| - 2);
      }
    }
  }

  lemma HarmlessNext(ws: seq<Window>, vs: seq<Window>, i: nat)
    requires ws != [] && Separated(ws) && Separated(vs) && 0 < i < |vs| - 1
    ensures HarmlessAt(ws, vs, i) <==> HarmlessAt(Insert(ws, vs[0]), vs[1..], i - 1)
  {
    hide Separated, Insert, AtLast, Alone;
    Starts(vs, i);
    Starts(vs, i + 1);
    Starts(vs, |vs| - 2);
    InsertTouches(ws, vs[0], vs[i]);
    TouchesIs(ws, vs[i]);
    TouchesIs(Insert(ws, vs[0]), vs[i]);
    InsertLast(ws, vs[0], vs[i + 1]);
  }

  lemma HarmlessRest(ws: seq<Window>, vs: seq<Window>)
    requires ws != [] && vs != [] && Separated(ws) && Separated(vs) && !Alone(ws, vs[0])
    ensures Harmless(ws, vs) <==> Harmless(Insert(ws, vs[0]), vs[1..])
  {
    hide Separated, Insert, HarmlessAt;
    var W := Insert(ws, vs[0]);
    if |vs| > 1 {
      HarmlessTouched(ws, vs);
    }
    forall i | 0 < i < |vs| - 1
      ensures HarmlessAt(ws, vs, i) <==> HarmlessAt(W, vs[1..], i - 1)
    {
      HarmlessNext(ws, vs, i);
    }
    if Harmless(ws, vs) {
      forall i | 0 <= i < |vs[1..]| - 1
        ensures HarmlessAt(W, vs[1..], i)
      {
        assert HarmlessAt(ws, vs, i + 1);
      }
    }
    if Harmless(W, vs[1..]) {
      forall i | 0 < i < |vs| - 1
        ensures HarmlessAt(ws, vs, i)
      {
        assert HarmlessAt(W, vs[1..], i - 1);
      }
    }
  }

  lemma HarmlessTouched(ws: seq<Window>, vs: seq<Window>)
    requires ws != [] && |vs| > 1 && !Alone(ws, vs[0])
    ensures HarmlessAt(ws, vs, 0)
  {
  }

  /** The first window that touches nothing decides. */
  lemma HarmlessFirst(ws: seq<Window>, vs: seq<Window>)
    requires ws != [] && Separated(vs) && |vs| > 1 && Alone(ws, vs[0])
    ensures Harmless(ws, vs) <==> AtLast(ws, vs[1]) && vs[|vs| - 2].start <= ws[|ws| - 1].End()
  {
    assert Harmless(ws, vs) ==> HarmlessAt(ws, vs, 0);
    if AtLast(ws, vs[1]) && vs[|vs| - 2].start <= ws[|ws| - 1].End() {
      forall i | 0 <= i < |vs| - 1
        ensures HarmlessAt(ws, vs, i)
      {
        if i > 0 {
          Reaches(ws, vs, i);
        }
      }
    }
  }

  lemma Reaches(ws: seq<Window>, vs: seq<Window>, i: nat)
    requires ws != [] && Separated(vs) && 0 < i < |vs| - 1 && AtLast(ws, vs[1]) && vs[|vs| - 2].start <= ws[|ws| - 1].End()
    ensures !Alone(ws, vs[i])
  {
    var n := |ws| - 1;
    if i > 1 {
      Starts(vs[1..], i - 1);
      if i < |vs| - 2 {
        assert vs == vs[..i] + vs[i..];
        SeparatedParts(vs[..i], vs[i..]);
        Starts(vs[i..], |vs| - 2 - i);
      }
    }
    assert Touch(ws[n], vs[i]);
  }

  lemma SurvivesJointIff(ws: seq<Window>, vs: seq<Window>)
    requires ws != [] && Separated(ws) && Separated(vs) && |vs| > 1 && Alone(ws, vs[0])
    ensures SurvivesJoint(Insert(ws, vs[0]), vs[1..]) <==> Harmless(ws, vs)
  {
    hide Insert, Separated, AtLast, TouchAt, Harmless, Absorbed;
    var W, ts := Insert(ws, vs[0]), vs[2..];
    HarmlessFirst(ws, vs);
    InsertFar(ws, vs);
    InsertSeparated(ws, vs[0]);
    TouchAtIs(W, vs[1]);
    if AtLast(W, vs[1]) {
      TakenLast(W, vs[1]);
      TailSeparated(vs);
      var front := Insert(W, vs[1]);
      AbsorbedMost(front[|front| - 1], vs[1], ts, ws[|ws| - 1].End());
    }
    assert vs[1..][0] == vs[1] && vs[1..][1..] == ts;
  }

  lemma TailSeparated(vs: seq<Window>)
    requires |vs| > 1 && Separated(vs)
    ensures Separated([vs[1]] + vs[2..])
  {
    assert vs[1..] == [vs[1]] + vs[2..];
  }

  lemma InsertFar(ws: seq<Window>, vs: seq<Window>)
    requires ws != [] && Separated(ws) && Separated(vs) && |vs| > 1
    ensures var W := Insert(ws, vs[0]);
            && (AtLast(W, vs[1]) <==> AtLast(ws, vs[1]))
            && Latest(W[|W| - 1].End(), vs[1].End()) == Latest(ws[|ws| - 1].End(), vs[1].End())
    ensures |vs| == 2 && AtLast(ws, vs[1]) ==> vs[0].start <= ws[|ws| - 1].End()
    ensures |vs| == 3 && AtLast(ws, vs[1]) ==> vs[1].start <= ws[|ws| - 1].End()
  {
    InsertLast(ws, vs[0], vs[1]);
  }

  /** What becomes of the last window when it takes over one that touches it only. */
  lemma TakenLast(W: seq<Window>, v: Window)
    requires W != [] && Separated(W) && AtLast(W, v)
    ensures var front := Insert(W, v);
            var b := front[|front| - 1];
            b.End() == Latest(W[|W| - 1].End(), v.End()) && b.start <= v.start
  {
    TouchAtIs(W, v);
    TouchLast(W, v);
  }

  /** The condition, stated on the lists that are merged. */
  lemma {:induction false} SurvivesIff(ws: seq<Window>, vs: seq<Window>)
    requires ws != [] && Separated(ws) && Separated(vs)
    ensures Survives(ws, vs) <==> Harmless(ws, vs)
    decreases |vs|
  {
    if vs != [] {
      TouchAtIs(ws, vs[0]);
      InsertSeparated(ws, vs[0]);
      assert Separated(vs[1..]);
      hide SurvivesJoint, Insert, Separated, HarmlessAt;
      if TouchAt(ws, vs[0]) < |ws| {
        SurvivesIff(Insert(ws, vs[0]), vs[1..]);
        HarmlessRest(ws, vs);
      } else if |vs| > 1 {
        SurvivesJointIff(ws, vs);
      }
    }
  }
}
