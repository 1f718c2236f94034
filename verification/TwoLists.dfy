/** The merging of two lists of triggers as it is written: the nodes of the second list keep their links, and some may be
    freed while they are still linked. */
module TwoLists {
  import opened Job
  import opened MergeWindows
  import opened TriggerMemory

  /** Where the loop over the second list stands: the rest of it is apart from the first list; it has become its end, with
      the pending node at p; the pending node is apart, but its links lead back into the list, at e; or it is in it. */
  datatype Phase =
    | Apart(X: seq<nat>, settled: bool)
    | Joint(p: nat)
    | Astray(C: seq<nat>, ks: seq<nat>, e: nat)
    | Itself(p: nat)

  /** The nodes of the list, and what is freed. */
  ghost predicate Listed(m: Mem, N: seq<nat>, f: set<nat>)
  {
    Path(m, N) && N != [] && Valid(m, N) && (forall x <- N :: x !in f) && forall x <- f :: x < |m|
  }

  /** What the merge of the windows to come will lead to. */
  ghost predicate Ahead(ws: seq<Window>, vs: seq<Window>, settled: bool, goal: seq<Window>, good: bool)
  {
    && ws != [] && Separated(ws) && Separated(vs) && InsertAll(ws, vs) == goal && Survives(ws, vs) == good
    && (settled ==> good && forall v <- vs :: Covered(v, ws))
  }

  ghost predicate IsApart(m: Mem, N: seq<nat>, f: set<nat>, X: seq<nat>, settled: bool, goal: seq<Window>, good: bool)
  {
    && Listed(m, N, f) && Path(m, X) && X != [] && Valid(m, X) && (forall x <- X :: x !in N && x !in f)
    && Ahead(Wins(m, N), Wins(m, X), settled, goal, good)
  }

  ghost predicate IsJoint(m: Mem, N: seq<nat>, f: set<nat>, p: nat, goal: seq<Window>, good: bool)
  {
    Listed(m, N, f) && 0 < p < |N| && AheadJoint(Wins(m, N), p, goal, good)
  }

  ghost predicate IsAstray(m: Mem, N: seq<nat>, f: set<nat>, C: seq<nat>, ks: seq<nat>, e: nat)
  {
    && Listed(m, N, f) && Separated(Wins(m, N)) && 0 < e < |N| - 1 && (forall x <- C :: x !in N && x !in f)
    && Leads(m, C, N[e]) && Placed(m, C, ks, Wins(m, N))
  }

  ghost predicate IsItself(m: Mem, N: seq<nat>, f: set<nat>, p: nat)
  {
    Listed(m, N, f) && 0 < p < |N| && TouchAt(Wins(m, N)[..p], Wins(m, N)[p]) == p
  }

  /** The loop is over, and all is well. */
  ghost predicate IsMerged(m: Mem, N: seq<nat>, f: set<nat>, goal: seq<Window>)
  {
    Listed(m, N, f) && Wins(m, N) == goal
  }

  // ---- a merge while the second list is apart

  lemma WinsTail(m: Mem, X: seq<nat>)
    requires X != [] && Valid(m, X)
    ensures Valid(m, X[1..]) && Wins(m, X)[1..] == Wins(m, X[1..]) && X[0] < |m| && Wins(m, X)[0] == m[X[0]].win
  {
    WinsAt(m, X);
  }

  lemma PathTail(m: Mem, X: seq<nat>)
    requires Path(m, X) && X != []
    ensures m[X[0]].next == (if |X| > 1 then X[1] else NULL) && X[0] !in X[1..] && (|X| > 1 ==> Path(m, X[1..]))
  {
    assert m[X[0]].next == if 1 < |X| then X[1] else NULL;
    var Y := X[1..];
    assert forall i :: 0 <= i < |Y| ==> Y[i] == X[i + 1];
    forall i | 0 <= i < |Y|
      ensures Y[i] < |m| && m[Y[i]].next == if i + 1 < |Y| then Y[i + 1] else NULL
    {
      assert m[X[i + 1]].next == if i + 2 < |X| then X[i + 2] else NULL;
    }
  }

  /** Nodes that a merge leaves alone. */
  lemma Untouched(m0: Mem, m: Mem, L: seq<nat>, tr: nat, out: seq<nat>, f0: set<nat>, f: set<nat>, X: seq<nat>)
    requires Spares(m0, m, L, tr, out, f0, f) && Valid(m0, X) && forall x <- X :: x !in L && x != tr && x !in f0
    ensures Valid(m, X) && Wins(m, X) == Wins(m0, X) && forall x <- X :: x < |m0| && x !in out && x !in f && m[x] == m0[x]
  {
    forall x | x in X
      ensures x < |m0| <= |m| && x !in out && x !in f && m[x] == m0[x]
    {
      var i :| 0 <= i < |X| && X[i] == x;
    }
    WinsSame(m0, m, X);
  }

  /** What the merge of a node that is not in the list comes to, if it is taken over. */
  lemma OutsideTaken(m0: Mem, N: seq<nat>, tr: nat, p: nat, f0: set<nat>, m: Mem, out: seq<nat>, f: set<nat>)
    requires Listed(m0, N, f0) && Outcome(m0, N, tr, p, f0, m, out, f) && tr !in N && TouchAt(Wins(m0, N), m0[tr].win) < |N|
    ensures Listed(m, out, f) && out[0] == N[0] && Spares(m0, m, N, tr, out, f0, f)
    ensures var ws, w := Wins(m0, N), m0[tr].win;
            Wins(m, out) == Insert(ws, w) && Extended(out, Kept(N, ws, w), Ends(ws, w), |m0|)
  {
    hide Insert, Kept, Ends, TouchAt, Wins;
    assert Path(m, out);
  }

  lemma AheadTaken(ws: seq<Window>, vs: seq<Window>, settled: bool, goal: seq<Window>, good: bool)
    requires Ahead(ws, vs, settled, goal, good) && vs != [] && TouchAt(ws, vs[0]) < |ws|
    ensures Ahead(Insert(ws, vs[0]), vs[1..], settled, goal, good)
    ensures |vs| == 1 ==> good && Insert(ws, vs[0]) == goal
  {
    assert vs == [vs[0]] + vs[1..];
    InsertSeparated(ws, vs[0]);
    InsertAllFront(ws, vs[0], vs[1..]);
    if settled {
      assert vs[0] in vs && forall v <- vs[1..] :: v in vs;
      CoveredSame(ws, vs[0]);
    }
  }

  lemma ApartTaken(m0: Mem, N: seq<nat>, f0: set<nat>, X: seq<nat>, settled: bool, goal: seq<Window>, good: bool,
                   m: Mem, out: seq<nat>, f: set<nat>)
    requires IsApart(m0, N, f0, X, settled, goal, good)
    requires Outcome(m0, N, X[0], 0, f0, m, out, f) && TouchAt(Wins(m0, N), m0[X[0]].win) < |N|
    ensures out[0] == N[0]
    ensures if |X| > 1 then IsApart(m, out, f, X[1..], settled, goal, good) else good && IsMerged(m, out, f, goal)
  {
    assert X[0] in X;
    hide Insert, Kept, Ends, Path, TouchAt, Wins, Outcome, Valid, Extended, Ahead;
    OutsideTaken(m0, N, X[0], 0, f0, m, out, f);
    WinsTail(m0, X);
    PathTail(m0, X);
    AheadTaken(Wins(m0, N), Wins(m0, X), settled, goal, good);
    assert forall x <- X[1..] :: x in X && x != X[0];
    Untouched(m0, m, N, X[0], out, f0, f, X[1..]);
    hide Spares, Listed;
    if |X| > 1 {
      PathSame(m0, m, X[1..]);
    }
  }

  // ---- a merge whose node becomes the end of the list, with all that is linked behind it

  lemma OutsideEnd(m0: Mem, N: seq<nat>, tr: nat, p: nat, f0: set<nat>, m: Mem, out: seq<nat>, f: set<nat>)
    requires Listed(m0, N, f0) && Outcome(m0, N, tr, p, f0, m, out, f) && tr !in N && TouchAt(Wins(m0, N), m0[tr].win) == |N|
    ensures out == N && Linked(m0, m, N, tr) && f == f0 && Spares(m0, m, N, tr, N, f0, f)
    ensures Wins(m, N) + [m[tr].win] == Insert(Wins(m0, N), m0[tr].win)
  {
    hide Insert, Kept, Ends, TouchAt, Wins;
  }

  ghost predicate AheadJoint(ws: seq<Window>, p: nat, goal: seq<Window>, good: bool)
  {
    && 0 < p < |ws| && Separated(ws[..p]) && Separated(ws[p..]) && InsertAll(ws[..p], ws[p..]) == goal
    && SurvivesJoint(ws[..p], ws[p..]) == good
  }

  lemma AheadEnd(ws: seq<Window>, vs: seq<Window>, settled: bool, goal: seq<Window>, good: bool)
    requires Ahead(ws, vs, settled, goal, good) && vs != [] && TouchAt(ws, vs[0]) == |ws|
    ensures !settled
    ensures var front := Insert(ws, vs[0]);
            if |vs| == 1 then good && front + vs[1..] == goal
            else front != [] && AheadJoint(front + vs[1..], |front|, goal, good)
  {
    var front := Insert(ws, vs[0]);
    assert vs == [vs[0]] + vs[1..];
    InsertSeparated(ws, vs[0]);
    InsertAllFront(ws, vs[0], vs[1..]);
    if settled {
      assert vs[0] in vs;
      CoveredSame(ws, vs[0]);
    }
    hide Insert;
    assert (front + vs[1..])[..|front|] == front && (front + vs[1..])[|front|..] == vs[1..];
  }

  /** The nodes of both lists are one list. */
  lemma EndListed(m0: Mem, N: seq<nat>, f: set<nat>, X: seq<nat>, m: Mem)
    requires Listed(m0, N, f) && Path(m0, X) && X != [] && Valid(m0, X) && (forall x <- X :: x !in N && x !in f)
    requires Linked(m0, m, N, X[0])
    ensures Listed(m, N + X, f)
  {
    PathAppend(m0, m, N, X);
    hide Path;
    forall x | x in N + X
      ensures x !in f
    {
      assert x in N || x in X;
    }
    WinsBoth(m, N, X);
  }

  lemma EndWins(m0: Mem, N: seq<nat>, f0: set<nat>, X: seq<nat>, m: Mem, f: set<nat>)
    requires X != [] && Valid(m0, X) && (forall x <- X :: x !in N && x !in f0) && X[0] !in X[1..]
    requires Valid(m, N) && X[0] < |m| && Spares(m0, m, N, X[0], N, f0, f)
    ensures Valid(m, N + X) && Wins(m, N + X) == Wins(m, N) + [m[X[0]].win] + Wins(m0, X)[1..]
  {
    hide Wins, Spares;
    assert forall x <- X[1..] :: x in X && x != X[0];
    WinsTail(m0, X);
    Untouched(m0, m, N, X[0], N, f0, f, X[1..]);
    assert N + X == (N + [X[0]]) + X[1..];
    WinsSnoc(m, N, X[0]);
    WinsBoth(m, N + [X[0]], X[1..]);
  }

  lemma ApartEnd(m0: Mem, N: seq<nat>, f0: set<nat>, X: seq<nat>, settled: bool, goal: seq<Window>, good: bool,
                 m: Mem, out: seq<nat>, f: set<nat>)
    requires IsApart(m0, N, f0, X, settled, goal, good)
    requires Outcome(m0, N, X[0], 0, f0, m, out, f) && TouchAt(Wins(m0, N), m0[X[0]].win) == |N|
    ensures !settled && out == N
    ensures if |X| > 1 then IsJoint(m, N + X, f, |N| + 1, goal, good) && (N + X)[|N| + 1] == X[1]
            else good && IsMerged(m, N + X, f, goal)
  {
    assert X[0] in X;
    OutsideEnd(m0, N, X[0], 0, f0, m, out, f);
    WinsTail(m0, X);
    PathTail(m0, X);
    EndListed(m0, N, f0, X, m);
    EndWins(m0, N, f0, X, m, f);
    AheadEnd(Wins(m0, N), Wins(m0, X), settled, goal, good);
    hide Insert, Path, TouchAt, Wins, Outcome, Valid, Ahead, AheadJoint, Spares, Listed, Linked;
    assert |Insert(Wins(m0, N), m0[X[0]].win)| == |N| + 1;
  }

  lemma WinsBoth(m: Mem, A: seq<nat>, B: seq<nat>)
    requires Valid(m, A) && Valid(m, B)
    ensures Valid(m, A + B) && Wins(m, A + B) == Wins(m, A) + Wins(m, B)
  {
  }

  // ---- a merge of a node that is in the list

  /** The node at p is taken over by the one before it. */
  predicate JustTaken(ws: seq<Window>, p: nat)
  {
    0 < p < |ws| && TouchAt(ws[..p], ws[p]) + 1 == p
  }

  /** How many windows behind p that one then takes over too. */
  function TakenOver(ws: seq<Window>, p: nat): (t: nat)
    requires 0 < p < |ws|
    ensures p + 1 + t <= |ws|
  {
    var front := Insert(ws[..p], ws[p]);
    Absorbed(front[|front| - 1], ws[p + 1..])
  }

  lemma JointReady(ws: seq<Window>, p: nat, goal: seq<Window>, good: bool)
    requires AheadJoint(ws, p, goal, good) && JustTaken(ws, p)
    ensures var front := Insert(ws[..p], ws[p]); Behind(front[|front| - 1], ws[p + 1..])
  {
    TouchLast(ws[..p], ws[p]);
    assert ws[p..] == [ws[p]] + ws[p + 1..];
    SeparatedParts([ws[p]], ws[p + 1..]);
  }

  /** The node is taken over by the last window before it: how the rest stands to the windows of the goal. */
  lemma JointGoal(ws: seq<Window>, p: nat, goal: seq<Window>, good: bool)
    requires AheadJoint(ws, p, goal, good) && JustTaken(ws, p)
    ensures var front := Insert(ws[..p], ws[p]);
            var n, b, ts, t := |front| - 1, front[|front| - 1], ws[p + 1..], TakenOver(ws, p);
            && n + 1 == p && front[..n] + Settled(b, ts) == goal && Separated(goal) && |goal| == p + |ts| - t
            && good == (|ts| - t <= 1) && (forall i :: 0 <= i < t ==> Within(ts[i], goal[p - 1])) && goal[p..] == ts[t..]
  {
    hide Insert, InsertAll, Settled, Separated, TouchAt, Behind, Within, SurvivesJoint, Absorbed, AheadJoint;
    var W, v, ts := ws[..p], ws[p], ws[p + 1..];
    var front := Insert(W, v);
    var zs, b := front[..|front| - 1], front[|front| - 1];
    JointReady(ws, p, goal, good);
    JointSplit(ws, p, goal, good);
    JointCount(ws, p, goal, good);
    JointParts(W, v, ts);
    SettledIs(b, ts);
    JoinedParts(zs, Settled(b, ts), p);
  }

  lemma JoinedParts(zs: seq<Window>, r: seq<Window>, p: nat)
    requires |zs| + 1 == p && r != []
    ensures (zs + r)[p..] == r[1..] && (zs + r)[p - 1] == r[0]
  {
  }

  lemma JointSplit(ws: seq<Window>, p: nat, goal: seq<Window>, good: bool)
    requires AheadJoint(ws, p, goal, good)
    ensures Separated(ws[..p]) && Separated(ws[p + 1..]) && InsertAll(ws[..p], [ws[p]] + ws[p + 1..]) == goal
  {
    assert ws[p..] == [ws[p]] + ws[p + 1..];
    JointRestApart(ws, p);
  }

  lemma JointRestApart(ws: seq<Window>, p: nat)
    requires p < |ws| && Separated(ws[p..])
    ensures Separated(ws[p + 1..])
  {
    assert ws[p..] == [ws[p]] + ws[p + 1..];
    SeparatedParts([ws[p]], ws[p + 1..]);
  }

  lemma JointCount(ws: seq<Window>, p: nat, goal: seq<Window>, good: bool)
    requires AheadJoint(ws, p, goal, good) && JustTaken(ws, p)
    ensures good == (|ws| - p - 1 - TakenOver(ws, p) <= 1)
  {
    hide Insert, InsertAll, Absorbed, Separated, TouchAt;
    assert ws[p..][0] == ws[p] && ws[p..][1..] == ws[p + 1..];
  }

  lemma JointParts(W: seq<Window>, v: Window, ts: seq<Window>)
    requires W != [] && Separated(W) && TouchAt(W, v) + 1 == |W|
    requires var front := Insert(W, v); Behind(front[|front| - 1], ts)
    ensures var front := Insert(W, v);
            var zs, b := front[..|front| - 1], front[|front| - 1];
            |front| == |W| && InsertAll(W, [v] + ts) == zs + Settled(b, ts) && Separated(zs + Settled(b, ts))
  {
    var front := Insert(W, v);
    var zs, b := front[..|front| - 1], front[|front| - 1];
    TouchLast(W, v);
    InsertAllFront(W, v, ts);
    InsertSeparated(W, v);
    hide Insert, InsertAll, Settled, TouchAt, Separated;
    assert front == zs + [b];
    InsertAllSettles(zs, b, ts);
    SettledIs(b, ts);
    SeparatedParts(zs, [b]);
    SeparatedSum(zs, Settled(b, ts));
  }

  /** The rest of the second list, if it has left the first, will change nothing more. */
  lemma JointSettled(ws: seq<Window>, p: nat, goal: seq<Window>, good: bool)
    requires AheadJoint(ws, p, goal, good) && JustTaken(ws, p)
    ensures Ahead(goal, ws[p + 1..], true, goal, true)
  {
    hide Insert, InsertAll, Absorbed, TouchAt, AheadJoint, Settled, InGoal, Separated, Within, TakenOver, Survives, Covered;
    var ts := ws[p + 1..];
    forall v | v in ts
      ensures Covered(v, goal)
    {
      var i :| 0 <= i < |ts| && ts[i] == v;
      JointCovered(ws, p, goal, good, i);
    }
    JointApart(ws, p, goal, good);
    SurvivesWithin(goal, ts);
    InsertAllWithin(goal, ts);
  }

  lemma JointApart(ws: seq<Window>, p: nat, goal: seq<Window>, good: bool)
    requires AheadJoint(ws, p, goal, good) && JustTaken(ws, p)
    ensures goal != [] && Separated(goal) && Separated(ws[p + 1..])
  {
    JointGoal(ws, p, goal, good);
    JointRestApart(ws, p);
  }

  lemma JointCovered(ws: seq<Window>, p: nat, goal: seq<Window>, good: bool, i: nat)
    requires AheadJoint(ws, p, goal, good) && JustTaken(ws, p) && p + 1 + i < |ws|
    ensures Covered(ws[p + 1..][i], goal)
  {
    hide Insert, InsertAll, Absorbed, TouchAt, AheadJoint, Settled, InGoal, Separated, Within, TakenOver;
    JointGoal(ws, p, goal, good);
    var ts, t := ws[p + 1..], TakenOver(ws, p);
    if i < t {
      assert Within(ts[i], goal[p - 1]);
    } else {
      assert goal[p + (i - t)] == goal[p..][i - t] == ts[t..][i - t] == ts[i];
      WithinSelf(ts[i]);
    }
  }

  lemma PathEnds(m: Mem, N: seq<nat>, p: nat)
    requires Path(m, N) && p < |N|
    ensures m[N[p]].next == (if p + 1 < |N| then N[p + 1] else NULL) && (p + 1 < |N| ==> Path(m, N[p + 1..]))
    ensures forall x <- N[p + 1..] :: x in N && x !in N[..p] && x != N[p]
    ensures p > 0 ==> N[p] != N[0]
  {
    assert m[N[p]].next == if p + 1 < |N| then N[p + 1] else NULL;
    var Y := N[p + 1..];
    assert forall i :: 0 <= i < |Y| ==> Y[i] == N[p + 1 + i];
    forall i | 0 <= i < |Y|
      ensures Y[i] < |m| && m[Y[i]].next == if i + 1 < |Y| then Y[i + 1] else NULL
    {
      assert m[N[p + 1 + i]].next == if p + 2 + i < |N| then N[p + 2 + i] else NULL;
    }
  }

  /** What the merge of the node at p comes to, if the one before it takes it over. */
  lemma InsideTaken(m0: Mem, N: seq<nat>, p: nat, f0: set<nat>, m: Mem, out: seq<nat>, f: set<nat>)
    requires Listed(m0, N, f0) && 0 < p < |N| && Outcome(m0, N, N[p], p, f0, m, out, f)
    requires JustTaken(Wins(m0, N), p)
    ensures Listed(m, out, f) && out[0] == N[0] && N[p] in f && Spares(m0, m, N, N[p], out, f0, f)
    ensures var g := InGoal(N, Wins(m0, N), p); Wins(m, out) == g.ws && Extended(out, g.kept, g.ends, |m0|)
  {
    hide Insert, Kept, Ends, TouchAt, Wins, Settled, Absorbed;
    assert N[p] in N;
    assert Path(m, out);
    assert out[0] == out[..|InGoal(N, Wins(m0, N), p).kept|][0];
  }

  /** Otherwise the node is freed and is still in the list. */
  lemma InsideFreed(m0: Mem, N: seq<nat>, p: nat, f0: set<nat>, m: Mem, out: seq<nat>, f: set<nat>)
    requires Listed(m0, N, f0) && 0 < p < |N| && Outcome(m0, N, N[p], p, f0, m, out, f)
    requires !JustTaken(Wins(m0, N), p)
    ensures N[p] in out && N[p] in f && Path(m, out) && out[0] == N[0]
  {
    hide Insert, Kept, Ends, TouchAt, Wins, Settled, Absorbed;
    assert N[p] in N;
  }

  /** The nodes behind p are no longer in the list, or all but the first t + 1 of them are. */
  lemma JointOut(N: seq<nat>, ws: seq<Window>, p: nat, out: seq<nat>, n: nat, t: nat)
    requires |N| == |ws| && 0 < p < |N| && (forall x <- N :: x < n)
    requires var g := InGoal(N, ws, p); Extended(out, g.kept, g.ends, n)
    requires t == TakenOver(ws, p)
    ensures var q := |N| - p - 1 - t;
            && (q == 0 ==> out == N[..p]) && (q >= 1 ==> |out| == p + q && out[..p] == N[..p] && out[p + q - 1] >= n)
            && forall i :: p <= i < p + q - 1 ==> out[i] == N[t + 2 + i]
  {
    hide Insert, Absorbed, Settled;
    var T := N[p + 1..];
    if t < |T| {
      var kept := N[..p] + T[t + 1..];
      assert kept[..p] == N[..p] && forall i :: p <= i < |kept| ==> kept[i] == N[t + 2 + i];
      assert out[..p] == out[..|kept|][..p];
      assert forall i :: 0 <= i < |kept| ==> out[i] == out[..|kept|][i];
    } else {
      assert N[..p] + [] == N[..p];
    }
  }

  lemma WinsFrom(m: Mem, N: seq<nat>, k: nat)
    requires Valid(m, N) && k <= |N|
    ensures Valid(m, N[k..]) && Wins(m, N[k..]) == Wins(m, N)[k..]
  {
  }

  /** These nodes are as they were, and not freed. */
  ghost predicate Keeps(m0: Mem, m: Mem, C: seq<nat>, f: set<nat>)
  {
    forall x <- C :: x < |m0| <= |m| && m[x] == m0[x] && x !in f
  }

  /** Nodes that were behind p and are no longer in the list. */
  lemma LeftBehind(m0: Mem, N: seq<nat>, p: nat, f0: set<nat>, m: Mem, out: seq<nat>, f: set<nat>, T: seq<nat>)
    requires p < |N| && Spares(m0, m, N, N[p], out, f0, f) && Valid(m0, N) && forall x <- N :: x !in f0
    requires forall x <- T :: x in N && x != N[p] && x !in out
    ensures Valid(m0, T) && Valid(m, T) && Keeps(m0, m, T, f)
  {
    forall x | x in T
      ensures x < |m0| <= |m| && m[x] == m0[x] && x !in f
    {
      assert x in N;
    }
    assert forall i :: 0 <= i < |T| ==> T[i] in T;
  }

  /** What holds of the merge of a node in the list that the one before it takes over. */
  lemma JointFacts(m0: Mem, N: seq<nat>, f0: set<nat>, p: nat, goal: seq<Window>, good: bool, m: Mem, out: seq<nat>, f: set<nat>)
    requires IsJoint(m0, N, f0, p, goal, good) && Outcome(m0, N, N[p], p, f0, m, out, f)
    requires JustTaken(Wins(m0, N), p)
    ensures Listed(m, out, f) && out[0] == N[0] && Spares(m0, m, N, N[p], out, f0, f) && Wins(m, out) == goal && N[p] in f
    ensures var g := InGoal(N, Wins(m0, N), p); Extended(out, g.kept, g.ends, |m0|)
    ensures forall x <- N :: x < |m0|
  {
    hide Insert, Absorbed, TouchAt, AheadJoint, Settled, Wins, Outcome, Path;
    InsideTaken(m0, N, p, f0, m, out, f);
    JointGoal(Wins(m0, N), p, goal, good);
  }

  /** The rest of the second list, when the first has left it. */
  lemma RestApart(m0: Mem, N: seq<nat>, p: nat, f0: set<nat>, m: Mem, out: seq<nat>, f: set<nat>)
    requires p + 1 < |N| && Listed(m0, N, f0) && Spares(m0, m, N, N[p], out, f0, f)
    requires forall x <- N[p + 1..] :: x !in out
    ensures var T := N[p + 1..];
            Path(m, T) && Valid(m, T) && (forall x <- T :: x !in out && x !in f) && Wins(m, T) == Wins(m0, N)[p + 1..]
  {
    var T := N[p + 1..];
    PathEnds(m0, N, p);
    hide Path, Wins;
    LeftBehind(m0, N, p, f0, m, out, f, T);
    hide Spares;
    PathSame(m0, m, T);
    WinsFrom(m0, N, p + 1);
    WinsSame(m0, m, T);
  }

  /** If at most one node of the rest is left over, none of the rest is in the list. */
  lemma RestOut(N: seq<nat>, p: nat, out: seq<nat>, n: nat)
    requires 0 < p < |N| && (forall x <- N :: x < n) && forall x <- N[p + 1..] :: x !in N[..p]
    requires out == N[..p] || (|out| == p + 1 && out[..p] == N[..p] && out[p] >= n)
    ensures forall x <- N[p + 1..] :: x !in out
  {
    forall x | x in out
      ensures x in N[..p] || x >= n
    {
      var i :| 0 <= i < |out| && out[i] == x;
      if i < p {
        assert x == out[..p][i] == N[..p][i];
      }
    }
    forall x | x in N[p + 1..]
      ensures x < n && x !in N[..p]
    {
      assert x in N;
    }
  }

  lemma JointRest(m0: Mem, N: seq<nat>, f0: set<nat>, p: nat, goal: seq<Window>, good: bool, m: Mem, out: seq<nat>, f: set<nat>)
    requires IsJoint(m0, N, f0, p, goal, good) && Outcome(m0, N, N[p], p, f0, m, out, f)
    requires JustTaken(Wins(m0, N), p) && good
    ensures forall x <- N[p + 1..] :: x !in out
  {
    var ws := Wins(m0, N);
    JointFacts(m0, N, f0, p, goal, good, m, out, f);
    JointGoal(ws, p, goal, good);
    PathEnds(m0, N, p);
    hide Insert, Absorbed, TouchAt, AheadJoint, Settled, InGoal, Wins, Path, Outcome, Within, Separated, Spares, TakenOver, JustTaken;
    JointOut(N, ws, p, out, |m0|, TakenOver(ws, p));
    RestOut(N, p, out, |m0|);
  }

  /** The rest of a joined list, once its node has been taken over and at most one node is left behind it. */
  lemma JointLeft(m0: Mem, N: seq<nat>, f0: set<nat>, p: nat, goal: seq<Window>, good: bool, m: Mem, out: seq<nat>, f: set<nat>)
    requires IsJoint(m0, N, f0, p, goal, good) && Outcome(m0, N, N[p], p, f0, m, out, f)
    requires JustTaken(Wins(m0, N), p) && good
    ensures out[0] == N[0]
    ensures if p + 1 < |N| then IsApart(m, out, f, N[p + 1..], true, goal, true) else IsMerged(m, out, f, goal)
  {
    hide TouchAt, Ahead, AheadJoint, Wins, Path, Outcome, Insert, JustTaken, TakenOver;
    JointFacts(m0, N, f0, p, goal, good, m, out, f);
    if p + 1 < |N| {
      JointRest(m0, N, f0, p, goal, good, m, out, f);
      RestApart(m0, N, p, f0, m, out, f);
      JointSettled(Wins(m0, N), p, goal, good);
    }
  }

  predicate Distinct(L: seq<nat>)
  {
    forall i, j :: 0 <= i < j < |L| ==> L[i] != L[j]
  }

  /** A part of a list shares no node with those before and behind it. */
  lemma Slice(N: seq<nat>, a: nat, b: nat)
    requires a <= b <= |N| && Distinct(N)
    ensures Distinct(N[a..b]) && forall x <- N[a..b] :: x in N && x !in N[..a] && x !in N[b..]
  {
    var C := N[a..b];
    assert forall i :: 0 <= i < |C| ==> C[i] == N[a + i];
  }

  lemma StrayApart(N: seq<nat>, p: nat, out: seq<nat>, t: nat, n: nat)
    requires Distinct(N) && 0 < p && p + t + 2 < |N| && |out| == |N| - 1 - t && out[..p] == N[..p] && forall x <- N :: x < n
    requires (forall i :: p <= i < |out| - 1 ==> out[i] == N[t + 2 + i]) && out[|out| - 1] >= n
    ensures forall x <- N[p + 1..p + 2 + t] :: x in N && x != N[p] && x !in out
  {
    forall y | y in out
      ensures y in N[..p] || y in N[p + 2 + t..] || y >= n
    {
      var k :| 0 <= k < |out| && out[k] == y;
      if k < p {
        assert y == out[..p][k] == N[..p][k];
      } else if k < |out| - 1 {
        assert y == N[t + 2 + k] == N[p + 2 + t..][k - p];
      }
    }
    Slice(N, p + 1, p + 2 + t);
    forall x | x in N[p + 1..p + 2 + t]
      ensures x < n && x != N[p] && x !in N[..p]
    {
      assert x in N && x !in N[..p + 1];
      assert N[..p + 1] == N[..p] + [N[p]];
    }
  }

  /** If more than one is left over, those of the rest that are not in the list still lead into it. */
  lemma StrayLinks(m: Mem, N: seq<nat>, a: nat, b: nat)
    requires Path(m, N) && a < b < |N|
    ensures var C := N[a..b];
            && Valid(m, C) && forall i {:trigger m[C[i]].next} :: 0 <= i < |C| ==> m[C[i]].next == if i + 1 < |C| then C[i + 1] else N[b]
  {
    var C := N[a..b];
    forall i | 0 <= i < |C|
      ensures C[i] < |m| && m[C[i]].next == if i + 1 < |C| then C[i + 1] else N[b]
    {
      assert C[i] == N[a + i] && m[N[a + i]].next == if a + i + 1 < |N| then N[a + i + 1] else NULL;
    }
  }

  /** Nodes behind one another that lead to x. */
  ghost predicate Leads(m: Mem, C: seq<nat>, x: nat)
  {
    && C != [] && Valid(m, C) && Distinct(C)
    && forall i {:trigger m[C[i]].next} :: 0 <= i < |C| ==> m[C[i]].next == if i + 1 < |C| then C[i + 1] else x
  }

  /** Each window lies within one of the list. */
  ghost predicate Placed(m: Mem, C: seq<nat>, ks: seq<nat>, ws: seq<Window>)
  {
    && |C| == |ks| && Valid(m, C)
    && forall i {:trigger ks[i]} :: 0 <= i < |C| ==> ks[i] < |ws| && Within(m[C[i]].win, ws[ks[i]])
  }

  lemma JointStray(m0: Mem, N: seq<nat>, f0: set<nat>, p: nat, goal: seq<Window>, good: bool, m: Mem, out: seq<nat>, f: set<nat>, t: nat)
    requires IsJoint(m0, N, f0, p, goal, good) && Outcome(m0, N, N[p], p, f0, m, out, f)
    requires JustTaken(Wins(m0, N), p) && !good
    requires t == TakenOver(Wins(m0, N), p)
    ensures p + 2 + t < |N| && |out| == |N| - 1 - t && out[p] == N[p + 2 + t]
    ensures var C := N[p + 1..p + 2 + t];
            (forall x <- C :: x !in out) && Valid(m0, C) && Valid(m, C) && Keeps(m0, m, C, f)
  {
    hide Insert, Absorbed, TouchAt, AheadJoint, Settled, InGoal, Wins, Path, Outcome, Within, Separated, Spares, TakenOver, JustTaken,
      Extended, Keeps, Distinct;
    var ws := Wins(m0, N);
    JointFacts(m0, N, f0, p, goal, good, m, out, f);
    JointCount(ws, p, goal, good);
    PathDistinct(m0, N);
    JointOut(N, ws, p, out, |m0|, t);
    StrayApart(N, p, out, t, |m0|);
    hide JustTaken;
    LeftBehind(m0, N, p, f0, m, out, f, N[p + 1..p + 2 + t]);
  }

  lemma JointPlaced(m0: Mem, N: seq<nat>, p: nat, goal: seq<Window>, good: bool, m: Mem, t: nat, f: set<nat>) returns (ks: seq<nat>)
    requires Valid(m0, N) && p < |N| && AheadJoint(Wins(m0, N), p, goal, good)
    requires JustTaken(Wins(m0, N), p) && p + 2 + t < |N|
    requires t == TakenOver(Wins(m0, N), p)
    requires var C := N[p + 1..p + 2 + t]; Valid(m, C) && Keeps(m0, m, C, f)
    ensures Placed(m, N[p + 1..p + 2 + t], ks, goal)
  {
    hide Insert, Absorbed, TouchAt, AheadJoint, Settled, InGoal, Separated, Within, TakenOver;
    var ws, C := Wins(m0, N), N[p + 1..p + 2 + t];
    ks := seq(t + 1, i => if i < t then p - 1 else p);
    forall i | 0 <= i < |C|
      ensures ks[i] < |goal| && Within(m[C[i]].win, goal[ks[i]])
    {
      assert C[i] in C && C[i] == N[p + 1 + i];
      JointWhere(ws, p, goal, good, i);
    }
  }

  /** Where in the goal the windows behind p are. */
  lemma JointWhere(ws: seq<Window>, p: nat, goal: seq<Window>, good: bool, i: nat)
    requires AheadJoint(ws, p, goal, good) && JustTaken(ws, p) && i <= TakenOver(ws, p) && p + 1 + i < |ws|
    ensures var k := if i < TakenOver(ws, p) then p - 1 else p; k < |goal| && Within(ws[p + 1 + i], goal[k])
  {
    hide Insert, Absorbed, TouchAt, AheadJoint, Settled, InGoal, Separated, Within, TakenOver;
    var t := TakenOver(ws, p);
    JointGoal(ws, p, goal, good);
    assert ws[p + 1 + i] == ws[p + 1..][i];
    if i == t {
      assert goal[p..][0] == ws[p + 1..][t..][0];
      WithinSelf(goal[p]);
    }
  }

  lemma WithinSelf(w: Window)
    ensures Within(w, w)
  {
  }

  lemma JointAstray(m0: Mem, N: seq<nat>, f0: set<nat>, p: nat, goal: seq<Window>, good: bool, m: Mem, out: seq<nat>, f: set<nat>)
      returns (C: seq<nat>, ks: seq<nat>)
    requires IsJoint(m0, N, f0, p, goal, good) && Outcome(m0, N, N[p], p, f0, m, out, f)
    requires JustTaken(Wins(m0, N), p) && !good
    ensures p + 1 < |N| && C != [] && C[0] == N[p + 1] && out[0] == N[0] && IsAstray(m, out, f, C, ks, p)
  {
    hide Insert, Absorbed, TouchAt, AheadJoint, Settled, InGoal, Wins, Path, Outcome, Within, Separated, Spares, Placed, Extended,
      TakenOver, JustTaken, Distinct, Keeps;
    var t := TakenOver(Wins(m0, N), p);
    JointFacts(m0, N, f0, p, goal, good, m, out, f);
    JointSeparated(Wins(m0, N), p, goal, good);
    JointStray(m0, N, f0, p, goal, good, m, out, f, t);
    C := N[p + 1..p + 2 + t];
    ks := JointPlaced(m0, N, p, goal, good, m, t, f);
    PathDistinct(m0, N);
    Slice(N, p + 1, p + 2 + t);
    StrayLinks(m0, N, p + 1, p + 2 + t);
    LeadsSame(m0, m, C, out[p], f);
    KeepsFree(m0, m, C, f);
  }

  lemma KeepsFree(m0: Mem, m: Mem, C: seq<nat>, f: set<nat>)
    requires Keeps(m0, m, C, f)
    ensures forall x <- C :: x !in f
  {
  }

  lemma JointSeparated(ws: seq<Window>, p: nat, goal: seq<Window>, good: bool)
    requires AheadJoint(ws, p, goal, good) && JustTaken(ws, p)
    ensures Separated(goal)
  {
    JointGoal(ws, p, goal, good);
  }

  lemma PathDistinct(m: Mem, N: seq<nat>)
    requires Path(m, N)
    ensures Distinct(N) && Valid(m, N)
  {
  }

  lemma LeadsSame(m0: Mem, m: Mem, C: seq<nat>, x: nat, f: set<nat>)
    requires Leads(m0, C, x) && Valid(m, C) && Keeps(m0, m, C, f)
    ensures Leads(m, C, x)
  {
    assert forall i :: 0 <= i < |C| ==> C[i] in C;
  }

  // ---- a merge of a node that leads into the list

  /** How many of the windows lie before the e-th of the list. */
  function Low(ks: seq<nat>, e: nat): (n: nat)
  {
    if ks == [] then 0 else (if ks[0] < e then 1 else 0) + Low(ks[1..], e)
  }

  lemma {:induction false} LowMore(ks: seq<nat>, e: nat, d: nat, k: nat)
    requires d <= e
    ensures Low(ks, d) <= Low(ks, e) && Low(ks + [k], e) == Low(ks, e) + if k < e then 1 else 0
  {
    if ks == [] {
      assert Low(ks + [k], e) == (if k < e then 1 else 0) + Low([k][1..], e);
    } else {
      assert (ks + [k])[1..] == ks[1..] + [k];
      LowMore(ks[1..], e, d, k);
    }
  }

  /** The list after the merge of a window within the k-th. */
  ghost predicate Rotated(N: seq<nat>, out: seq<nat>, k: nat, n: nat)
  {
    && k < |N| == |out| && (k + 1 == |N| ==> out == N)
    && (k + 1 < |N| ==> out[|N| - 1] >= n && forall i :: 0 <= i < |N| - 1 ==> out[i] == N[if i <= k then i else i + 1])
  }

  lemma RotatedIs(N: seq<nat>, out: seq<nat>, k: nat, n: nat)
    requires k < |N| && Extended(out, if k + 1 < |N| then N[..k + 1] + N[k + 2..] else N, k + 1 < |N|, n)
    ensures Rotated(N, out, k, n)
  {
    if k + 1 < |N| {
      var kept := N[..k + 1] + N[k + 2..];
      assert forall i :: 0 <= i < |kept| ==> out[i] == out[..|kept|][i];
    }
  }

  lemma AstrayFacts(m0: Mem, N: seq<nat>, f0: set<nat>, C: seq<nat>, ks: seq<nat>, e: nat, m: Mem, out: seq<nat>, f: set<nat>)
    requires IsAstray(m0, N, f0, C, ks, e) && Outcome(m0, N, C[0], 0, f0, m, out, f)
    ensures Listed(m, out, f) && Wins(m, out) == Wins(m0, N) && Spares(m0, m, N, C[0], out, f0, f) && C[0] !in N
    ensures Rotated(N, out, ks[0], |m0|) && out[0] == N[0]
  {
    var ws, w := Wins(m0, N), m0[C[0]].win;
    assert C[0] in C && ks[0] < |N| && Within(w, ws[ks[0]]);
    hide Insert, Kept, Ends, TouchAt, Wins, Outcome, Within, Separated, Path, Leads, Placed, Extended, Spares;
    Again(N, ws, w, ks[0]);
    OutsideTaken(m0, N, C[0], 0, f0, m, out, f);
    RotatedIs(N, out, ks[0], |m0|);
  }

  lemma LeadsTail(m: Mem, C: seq<nat>, x: nat)
    requires Leads(m, C, x)
    ensures m[C[0]].next == (if |C| > 1 then C[1] else x) && C[0] !in C[1..] && (|C| > 1 ==> Leads(m, C[1..], x))
  {
    var B := C[1..];
    assert m[C[0]].next == if 1 < |C| then C[1] else x;
    assert forall i :: 0 <= i < |B| ==> B[i] == C[i + 1];
    forall i | 0 <= i < |B|
      ensures B[i] < |m| && m[B[i]].next == if i + 1 < |B| then B[i + 1] else x
    {
      assert m[C[i + 1]].next == if i + 2 < |C| then C[i + 2] else x;
    }
  }

  lemma LeadsOn(m: Mem, C: seq<nat>, x: nat, y: nat)
    requires (C == [] || Leads(m, C, x)) && x !in C && x < |m| && m[x].next == y
    ensures Leads(m, C + [x], y)
  {
    var B := C + [x];
    forall i | 0 <= i < |B|
      ensures B[i] < |m| && m[B[i]].next == if i + 1 < |B| then B[i + 1] else y
    {
      if i < |C| {
        assert B[i] == C[i] && m[C[i]].next == if i + 1 < |C| then C[i + 1] else x;
      }
    }
  }

  /** The place at which the chain leads into the list, after the merge. */
  function Entrance(k: nat, e: nat): (d: nat)
    requires e > 0
  {
    if k + 1 < e then e - 1 else e
  }

  lemma EntranceIs(m: Mem, N: seq<nat>, out: seq<nat>, k: nat, e: nat)
    requires Path(m, N) && Rotated(N, out, k, |m|) && 0 < e < |N| - 1
    ensures 0 < Entrance(k, e) < |out| - 1 && N[e] < |m|
    ensures if k + 1 == e then N[e] !in out && out[e] == N[e + 1] && m[N[e]].next == N[e + 1] else out[Entrance(k, e)] == N[e]
  {
    assert m[N[e]].next == if e + 1 < |N| then N[e + 1] else NULL;
  }

  /** The chain after the merge of its first node: a node of the list that has led into it joins the chain. */
  function Chained(C: seq<nat>, N: seq<nat>, k: nat, e: nat): (B: seq<nat>)
    requires C != [] && e < |N|
  {
    if k + 1 == e then C[1..] + [N[e]] else C[1..]
  }

  function Ranked(ks: seq<nat>, e: nat): (r: seq<nat>)
    requires ks != []
  {
    if ks[0] + 1 == e then ks[1..] + [e] else ks[1..]
  }

  lemma ChainLeads(m: Mem, N: seq<nat>, C: seq<nat>, out: seq<nat>, k: nat, e: nat)
    requires Path(m, N) && Rotated(N, out, k, |m|) && 0 < e < |N| - 1 && Leads(m, C, N[e]) && forall x <- C :: x !in N
    ensures Entrance(k, e) < |out|
    ensures var B := Chained(C, N, k, e);
            && m[C[0]].next == (if B != [] then B[0] else out[Entrance(k, e)]) && C[0] !in B
            && (B != [] ==> Leads(m, B, out[Entrance(k, e)]))
  {
    EntranceIs(m, N, out, k, e);
    LeadsTail(m, C, N[e]);
    assert forall x <- C[1..] :: x in C;
    assert N[e] in N;
    hide Path, Leads, Rotated;
    if k + 1 == e {
      assert C[0] in C;
      LeadsOn(m, C[1..], N[e], N[e + 1]);
    }
  }

  lemma ChainPlaced(m: Mem, N: seq<nat>, C: seq<nat>, ks: seq<nat>, e: nat)
    requires Valid(m, N) && C != [] && Placed(m, C, ks, Wins(m, N)) && e < |N|
    ensures Placed(m, Chained(C, N, ks[0], e), Ranked(ks, e), Wins(m, N))
  {
    var B, rs, ws := Chained(C, N, ks[0], e), Ranked(ks, e), Wins(m, N);
    hide Within;
    forall i | 0 <= i < |B|
      ensures B[i] < |m| && rs[i] < |ws| && Within(m[B[i]].win, ws[rs[i]])
    {
      if i + 1 < |C| {
        assert B[i] == C[i + 1] && rs[i] == ks[i + 1];
      } else {
        WithinSelf(ws[e]);
      }
    }
  }

  lemma PlacedSame(m0: Mem, m: Mem, C: seq<nat>, ks: seq<nat>, ws: seq<Window>, f: set<nat>)
    requires Placed(m0, C, ks, ws) && Keeps(m0, m, C, f)
    ensures Valid(m, C) && Placed(m, C, ks, ws)
  {
    assert forall i :: 0 <= i < |C| ==> C[i] in C;
  }

  /** Nodes that the merge leaves alone. */
  lemma ChainKeeps(m0: Mem, N: seq<nat>, f0: set<nat>, C: seq<nat>, k: nat, e: nat, m: Mem, out: seq<nat>, f: set<nat>)
    requires Listed(m0, N, f0) && C != [] && Valid(m0, C) && Distinct(C) && (forall x <- C :: x !in N && x !in f0)
    requires Rotated(N, out, k, |m0|) && Spares(m0, m, N, C[0], out, f0, f) && 0 < e < |N| - 1
    ensures var B := Chained(C, N, k, e); Keeps(m0, m, B, f) && forall x <- B :: x !in out
  {
    var B := Chained(C, N, k, e);
    EntranceIs(m0, N, out, k, e);
    hide Path, Rotated;
    forall x | x in B
      ensures x < |m0| <= |m| && x != C[0] && x !in out && x !in f0
    {
      if x in C[1..] {
        var i :| 0 <= i < |C| - 1 && C[1..][i] == x;
        assert x == C[i + 1] && x in C;
      } else {
        assert x in N && C[0] in C;
      }
    }
  }

  /** The next pass of the loop over the second list: the chain gets shorter, or fewer of it lie before its entrance. */
  lemma AstrayOn(m0: Mem, N: seq<nat>, f0: set<nat>, C: seq<nat>, ks: seq<nat>, e: nat, m: Mem, out: seq<nat>, f: set<nat>)
      returns (B: seq<nat>, rs: seq<nat>, d: nat)
    requires IsAstray(m0, N, f0, C, ks, e) && Outcome(m0, N, C[0], 0, f0, m, out, f)
    ensures out[0] == N[0] && d < |out| && m0[C[0]].next == if B != [] then B[0] else out[d]
    ensures |B| + Low(rs, d) < |C| + Low(ks, e)
    ensures if B != [] then IsAstray(m, out, f, B, rs, d) else IsItself(m, out, f, d)
  {
    AstrayFacts(m0, N, f0, C, ks, e, m, out, f);
    hide Insert, TouchAt, Wins, Outcome, Within, Path, Leads, Placed, Extended, Spares, Rotated, Keeps, Low;
    B, rs, d := Chained(C, N, ks[0], e), Ranked(ks, e), Entrance(ks[0], e);
    EntranceIs(m0, N, out, ks[0], e);
    ChainLeads(m0, N, C, out, ks[0], e);
    ChainPlaced(m0, N, C, ks, e);
    ChainKeeps(m0, N, f0, C, ks[0], e, m, out, f);
    PlacedSame(m0, m, B, rs, Wins(m0, N), f);
    LowLess(ks, e);
    if B != [] {
      LeadsSame(m0, m, B, out[d], f);
      KeepsFree(m0, m, B, f);
    } else {
      NoneBefore(Wins(m, out), d);
    }
  }

  lemma LowLess(ks: seq<nat>, e: nat)
    requires ks != [] && e > 0
    ensures |Ranked(ks, e)| + Low(Ranked(ks, e), Entrance(ks[0], e)) < |ks| + Low(ks, e)
  {
    LowMore(ks[1..], e, Entrance(ks[0], e), e);
  }

  lemma {:induction false} NoneBefore(ws: seq<Window>, p: nat)
    requires Separated(ws) && p < |ws|
    ensures TouchAt(ws[..p], ws[p]) == p
  {
    if p > 0 {
      Starts(ws, p);
      assert ws[..p][1..] == ws[1..][..p - 1];
      NoneBefore(ws[1..], p - 1);
    }
  }

  // ---- the loop over the second list

  /** A node that is linked has been freed. */
  ghost predicate IsGone(m: Mem, out: seq<nat>, f: set<nat>)
  {
    Path(m, out) && exists x :: x in out && x in f
  }

  ghost predicate Standing(m: Mem, N: seq<nat>, f: set<nat>, trg: int, ph: Phase, goal: seq<Window>, good: bool)
  {
    match ph
    case Apart(X, settled) => IsApart(m, N, f, X, settled, goal, good) && trg == X[0]
    case Joint(p) => IsJoint(m, N, f, p, goal, good) && trg == N[p]
    case Astray(C, ks, e) => !good && IsAstray(m, N, f, C, ks, e) && trg == C[0]
    case Itself(p) => !good && IsItself(m, N, f, p) && trg == N[p]
  }

  function Place(ph: Phase): nat
  {
    match ph
    case Joint(p) => p
    case Itself(p) => p
    case _ => 0
  }

  /** The loop ends: these two go down. */
  function Stage(ph: Phase): nat
  {
    match ph
    case Apart(_, settled) => if settled then 1 else 3
    case Joint(_) => 2
    case Astray(_, _, _) => 1
    case Itself(_) => 0
  }

  function Length(ph: Phase): nat
  {
    match ph
    case Apart(X, _) => |X|
    case Astray(C, ks, e) => |C| + Low(ks, e)
    case _ => 0
  }

  lemma StandingGiven(m: Mem, N: seq<nat>, f: set<nat>, trg: nat, ph: Phase, goal: seq<Window>, good: bool)
    requires Standing(m, N, f, trg, ph, goal, good)
    ensures Given(m, N, trg, Place(ph), f) && trg != N[0] && trg < |m| && m[trg].next >= NULL
  {
    hide Insert, TouchAt, Wins, Ahead, AheadJoint, Behind;
    match ph
    case Apart(X, settled) =>
      assert X[0] in X && N[0] in N;
      PathTail(m, X);
    case Joint(p) =>
      PathEnds(m, N, p);
      ReadyJoint(m, N, f, p, goal, good);
    case Astray(C, ks, e) =>
      assert C[0] in C && N[0] in N;
      LeadsTail(m, C, N[e]);
    case Itself(p) =>
      PathEnds(m, N, p);
  }

  lemma ReadyJoint(m: Mem, N: seq<nat>, f: set<nat>, p: nat, goal: seq<Window>, good: bool)
    requires IsJoint(m, N, f, p, goal, good)
    ensures InReady(m, N, p) && N[p] in N && N[p] !in f
  {
    hide Insert, Behind, Path, AheadJoint;
    var ws := Wins(m, N);
    if JustTaken(ws, p) {
      JointReady(ws, p, goal, good);
    }
  }

  /** How the loop stands after a merge: the list is `out`, or has the rest of the second list at its end. */
  ghost predicate Stands(m: Mem, N: seq<nat>, f: set<nat>, flag: int, ph: Phase, next: Phase, goal: seq<Window>, good: bool)
  {
    if flag == NULL then good && IsMerged(m, N, f, goal)
    else
      && Standing(m, N, f, flag, next, goal, good)
      && (Stage(next) < Stage(ph) || (Stage(next) == Stage(ph) && Length(next) < Length(ph)))
  }

  /** The rest of the second list, as long as nothing of it has been linked to the first. */
  ghost predicate Rest(ph: Phase, rest: seq<nat>)
  {
    ph.Apart? && !ph.settled ==> rest == ph.X
  }

  lemma PassApart(m0: Mem, N: seq<nat>, f0: set<nat>, trg: nat, ph: Phase, goal: seq<Window>, good: bool,
                  m: Mem, out: seq<nat>, f: set<nat>) returns (next: Phase)
    requires ph.Apart? && Standing(m0, N, f0, trg, ph, goal, good) && Outcome(m0, N, trg, 0, f0, m, out, f)
    ensures trg < |m0| && N != [] && (next.Apart? && !next.settled ==> !ph.settled && next.X == ph.X[1..])
    ensures if trg in f then out != [] && out[0] == N[0] && Stands(m, out, f, m0[trg].next, ph, next, goal, good)
            else !ph.settled && out == N && Stands(m, N + ph.X, f, m0[trg].next, ph, next, goal, good)
  {
    var X := ph.X;
    assert X[0] in X;
    PathTail(m0, X);
    TakenFreed(m0, N, trg, f0, m, out, f);
    hide Insert, TouchAt, Wins, Outcome, Ahead, AheadJoint, Path, Standing, Stands;
    if TouchAt(Wins(m0, N), m0[trg].win) < |N| {
      ApartTaken(m0, N, f0, X, ph.settled, goal, good, m, out, f);
      next := TakenStands(m, out, f, X, ph, goal, good);
    } else {
      ApartEnd(m0, N, f0, X, ph.settled, goal, good, m, out, f);
      next := EndStands(m, N, f, X, ph, goal, good);
    }
  }

  lemma TakenStands(m: Mem, N: seq<nat>, f: set<nat>, X: seq<nat>, ph: Phase, goal: seq<Window>, good: bool) returns (next: Phase)
    requires ph.Apart? && X == ph.X != []
    requires if |X| > 1 then IsApart(m, N, f, X[1..], ph.settled, goal, good) else good && IsMerged(m, N, f, goal)
    ensures Stands(m, N, f, if |X| > 1 then X[1] else NULL, ph, next, goal, good) && next == Apart(X[1..], ph.settled)
  {
    hide Path, IsApart, IsMerged;
    next := Apart(X[1..], ph.settled);
  }

  lemma EndStands(m: Mem, N: seq<nat>, f: set<nat>, X: seq<nat>, ph: Phase, goal: seq<Window>, good: bool) returns (next: Phase)
    requires ph == Apart(X, false) && X != []
    requires if |X| > 1 then IsJoint(m, N + X, f, |N| + 1, goal, good) else good && IsMerged(m, N + X, f, goal)
    ensures Stands(m, N + X, f, if |X| > 1 then X[1] else NULL, ph, next, goal, good) && next.Joint?
  {
    hide Path, IsJoint, IsMerged;
    next := Joint(|N| + 1);
  }

  lemma TakenFreed(m0: Mem, N: seq<nat>, trg: nat, f0: set<nat>, m: Mem, out: seq<nat>, f: set<nat>)
    requires Valid(m0, N) && trg < |m0| && trg !in N && Outcome(m0, N, trg, 0, f0, m, out, f)
    ensures trg in f <==> TouchAt(Wins(m0, N), m0[trg].win) < |N|
  {
    hide Insert, TouchAt, Wins, Ends, Kept;
  }

  lemma PassJoint(m0: Mem, N: seq<nat>, f0: set<nat>, trg: nat, ph: Phase, goal: seq<Window>, good: bool,
                  m: Mem, out: seq<nat>, f: set<nat>) returns (next: Phase)
    requires ph.Joint? && Standing(m0, N, f0, trg, ph, goal, good) && Outcome(m0, N, trg, ph.p, f0, m, out, f)
    ensures trg < |m0| && out != [] && N != [] && out[0] == N[0] && trg in f && !(next.Apart? && !next.settled)
    ensures Stands(m, out, f, m0[trg].next, ph, next, goal, good) || (!good && IsGone(m, out, f))
  {
    var p := ph.p;
    PathEnds(m0, N, p);
    hide Insert, TouchAt, Wins, Outcome, Ahead, AheadJoint, Path, JustTaken, Low, Standing, Stands;
    if !JustTaken(Wins(m0, N), p) {
      InsideFreed(m0, N, p, f0, m, out, f);
      JointBad(Wins(m0, N), p, goal, good);
      next := ph;
    } else if good {
      JointLeft(m0, N, f0, p, goal, good, m, out, f);
      JointFacts(m0, N, f0, p, goal, good, m, out, f);
      next := LeftStands(m, out, f, N[p + 1..], ph, goal);
    } else {
      var C, ks := JointAstray(m0, N, f0, p, goal, good, m, out, f);
      JointFacts(m0, N, f0, p, goal, good, m, out, f);
      next := StrayStands(m, out, f, C, ks, p, ph, goal);
    }
  }

  lemma LeftStands(m: Mem, N: seq<nat>, f: set<nat>, X: seq<nat>, ph: Phase, goal: seq<Window>) returns (next: Phase)
    requires ph.Joint? && if X == [] then IsMerged(m, N, f, goal) else IsApart(m, N, f, X, true, goal, true)
    ensures Stands(m, N, f, if X == [] then NULL else X[0], ph, next, goal, true) && next == Apart(X, true)
  {
    hide Path, IsApart, IsMerged;
    next := Apart(X, true);
  }

  lemma StrayStands(m: Mem, N: seq<nat>, f: set<nat>, C: seq<nat>, ks: seq<nat>, e: nat, ph: Phase, goal: seq<Window>) returns (next: Phase)
    requires ph.Joint? && C != [] && IsAstray(m, N, f, C, ks, e)
    ensures Stands(m, N, f, C[0], ph, next, goal, false) && next.Astray?
  {
    hide Path, IsAstray;
    next := Astray(C, ks, e);
  }

  lemma JointBad(ws: seq<Window>, p: nat, goal: seq<Window>, good: bool)
    requires AheadJoint(ws, p, goal, good) && !JustTaken(ws, p)
    ensures !good
  {
    assert ws[p..][0] == ws[p];
  }

  lemma Pass(m0: Mem, N: seq<nat>, f0: set<nat>, trg: nat, ph: Phase, goal: seq<Window>, good: bool,
             m: Mem, out: seq<nat>, f: set<nat>) returns (next: Phase)
    requires Standing(m0, N, f0, trg, ph, goal, good) && Outcome(m0, N, trg, Place(ph), f0, m, out, f)
    ensures trg < |m0| && N != [] && (trg !in f ==> ph.Apart? && !ph.settled && out == N)
    ensures next.Apart? && !next.settled ==> ph.Apart? && !ph.settled && next.X == ph.X[1..]
    ensures var N' := if trg !in f then N + ph.X else out;
            N' != [] && N'[0] == N[0] && (Stands(m, N', f, m0[trg].next, ph, next, goal, good) || (!good && IsGone(m, N', f)))
  {
    hide Outcome, Path, Insert, TouchAt, Ahead, AheadJoint, Stands;
    match ph
    case Apart(_, _) =>
      next := PassApart(m0, N, f0, trg, ph, goal, good, m, out, f);
    case Joint(p) =>
      assert N[p] in N;
      next := PassJoint(m0, N, f0, trg, ph, goal, good, m, out, f);
    case Astray(C, ks, e) =>
      next := PassAstray(m0, N, f0, trg, ph, goal, good, m, out, f);
    case Itself(p) =>
      assert N[p] in N;
      PathEnds(m0, N, p);
      ItselfFreed(m0, N, p, f0, m, out, f);
      next := ph;
  }

  lemma ItselfFreed(m0: Mem, N: seq<nat>, p: nat, f0: set<nat>, m: Mem, out: seq<nat>, f: set<nat>)
    requires IsItself(m0, N, f0, p) && Outcome(m0, N, N[p], p, f0, m, out, f)
    ensures out != [] && out[0] == N[0] && N[p] in f && IsGone(m, out, f)
  {
    InsideFreed(m0, N, p, f0, m, out, f);
  }

  lemma PassAstray(m0: Mem, N: seq<nat>, f0: set<nat>, trg: nat, ph: Phase, goal: seq<Window>, good: bool,
                   m: Mem, out: seq<nat>, f: set<nat>) returns (next: Phase)
    requires ph.Astray? && Standing(m0, N, f0, trg, ph, goal, good) && Outcome(m0, N, trg, 0, f0, m, out, f)
    ensures trg < |m0| && out != [] && N != [] && out[0] == N[0] && trg in f && !next.Apart?
    ensures Stands(m, out, f, m0[trg].next, ph, next, goal, good)
  {
    var B, rs, d := AstrayOn(m0, N, f0, ph.C, ph.ks, ph.e, m, out, f);
    next := if B != [] then Astray(B, rs, d) else Itself(d);
  }

  /** trigger_mingle_two_list. N are the nodes linked from `head`, X those from `des`; `out` are the nodes linked from `head`
      at the end, or as soon as one of them has been freed. */
  method MingleTwoLists(memory: Memory, head: nat, des: nat, N: seq<nat>, X: seq<nat>) returns (out: seq<nat>)
    requires Listed(memory.cells, N, memory.freed) && Listed(memory.cells, X, memory.freed) && N[0] == head && X[0] == des
    requires forall x <- X :: x !in N
    requires Separated(Wins(memory.cells, N)) && Separated(Wins(memory.cells, X))
    modifies memory
    ensures Path(memory.cells, out) && out[0] == head
    ensures (forall x <- out :: x !in memory.freed) <==> Harmless(old(Wins(memory.cells, N)), old(Wins(memory.cells, X)))
    ensures (forall x <- out :: x !in memory.freed) ==>
              Wins(memory.cells, out) == InsertAll(old(Wins(memory.cells, N)), old(Wins(memory.cells, X)))
    ensures (forall x <- out :: x !in memory.freed) ==>
              && Separated(Wins(memory.cells, out))
              && forall t: int :: Covers(Wins(memory.cells, out), t)
                             <==> Covers(old(Wins(memory.cells, N)), t) || Covers(old(Wins(memory.cells, X)), t)
  {
    ghost var ws, vs := Wins(memory.cells, N), Wins(memory.cells, X);
    ghost var goal, good := InsertAll(ws, vs), Survives(ws, vs);
    ghost var ph := Apart(X, false);
    hide Standing, Stands, Outcome, Wins, Survives, Harmless, InsertAll;
    SurvivesIff(ws, vs);
    InsertAllMeans(ws, vs);
    var trg: int, rest := des, X;
    out := N;
    Started(memory.cells, N, memory.freed, X);
    while trg != NULL
      invariant out != [] && out[0] == head && Rest(ph, rest)
      invariant if trg == NULL then good && IsMerged(memory.cells, out, memory.freed, goal)
                else Standing(memory.cells, out, memory.freed, trg, ph, goal, good)
      decreases if trg == NULL then 0 else 1, Stage(ph), Length(ph)
    {
      ghost var m0, f0, N0 := memory.cells, memory.freed, out;
      StandingGiven(m0, N0, f0, trg, ph, goal, good);
      var was: nat := trg;
      trg := memory.cells[was].next;
      out := memory.Mingle(head, was, out, Place(ph));
      ghost var next := Pass(m0, N0, f0, was, ph, goal, good, memory.cells, out, memory.freed);
      if was !in memory.freed {
        out := out + rest;
      }
      if exists x :: x in out && x in memory.freed {
        NotStanding(memory.cells, out, memory.freed, trg, ph, next, goal, good);
        return;
      }
      StillStanding(memory.cells, out, memory.freed, trg, ph, next, goal, good);
      rest := if rest == [] then rest else rest[1..];
      ph := next;
    }
  }

  /** Two jobs of one channel, merged in either order in two memories: the lists are equal, if no linked node is freed. */
  method EitherOrder(a: Memory, N: seq<nat>, X: seq<nat>, b: Memory, M: seq<nat>, Y: seq<nat>) returns (one: seq<nat>, two: seq<nat>)
    requires a != b && Listed(a.cells, N, a.freed) && Listed(a.cells, X, a.freed) && forall x <- X :: x !in N
    requires Listed(b.cells, M, b.freed) && Listed(b.cells, Y, b.freed) && forall x <- Y :: x !in M
    requires Separated(Wins(a.cells, N)) && Separated(Wins(a.cells, X)) && Positive(Wins(a.cells, N)) && Positive(Wins(a.cells, X))
    requires Wins(b.cells, M) == Wins(a.cells, X) && Wins(b.cells, Y) == Wins(a.cells, N)
    modifies a, b
    ensures Path(a.cells, one) && Path(b.cells, two)
    ensures Harmless(old(Wins(a.cells, N)), old(Wins(a.cells, X))) && Harmless(old(Wins(a.cells, X)), old(Wins(a.cells, N))) ==>
              Wins(a.cells, one) == Wins(b.cells, two)
  {
    MergeCommutes(Wins(a.cells, N), Wins(a.cells, X));
    hide InsertAll, Wins, Harmless, Separated, Covers;
    one := MingleTwoLists(a, N[0], X[0], N, X);
    two := MingleTwoLists(b, M[0], Y[0], M, Y);
  }

  /** Two windows behind the only one of the first list, all apart: the last of them is freed while the one before it points
      to it. */
  method LosesNode() returns (memory: Memory, out: seq<nat>)
    ensures fresh(memory) && Path(memory.cells, out) && exists x :: x in out && x in memory.freed
  {
    var a, b, c := Window(28800, 3600), Window(36000, 3600), Window(43200, 3600);
    memory := new Memory([Cell(a, NULL), Cell(b, 2), Cell(c, NULL)]);
    LosesApart(a, b, c);
    assert Wins(memory.cells, [0]) == [a] && Wins(memory.cells, [1, 2]) == [b, c];
    out := MingleTwoLists(memory, 0, 1, [0], [1, 2]);
  }

  lemma LosesApart(a: Window, b: Window, c: Window)
    requires a.End() < b.start && b.End() < c.start
    ensures Separated([a]) && Separated([b, c]) && !Harmless([a], [b, c])
  {
    assert !HarmlessAt([a], [b, c], 0);
  }

  /** A second list of one window does no harm, nor does one whose windows all touch the first. */
  lemma NoHarm(ws: seq<Window>, vs: seq<Window>)
    requires ws != [] && (|vs| <= 1 || forall v <- vs :: !Alone(ws, v))
    ensures Harmless(ws, vs)
  {
    forall i | 0 <= i < |vs| - 1
      ensures HarmlessAt(ws, vs, i)
    {
      assert vs[i] in vs;
    }
  }

  lemma Started(m: Mem, N: seq<nat>, f: set<nat>, X: seq<nat>)
    requires Listed(m, N, f) && Listed(m, X, f) && (forall x <- X :: x !in N) && Separated(Wins(m, N)) && Separated(Wins(m, X))
    ensures var ws, vs := Wins(m, N), Wins(m, X); Standing(m, N, f, X[0], Apart(X, false), InsertAll(ws, vs), Survives(ws, vs))
  {
    hide InsertAll, Survives, Separated, Path;
  }

  /** In every phase no linked node has been freed. */
  lemma NotStanding(m: Mem, N: seq<nat>, f: set<nat>, flag: int, ph: Phase, next: Phase, goal: seq<Window>, good: bool)
    requires exists x :: x in N && x in f
    requires Stands(m, N, f, flag, ph, next, goal, good) || (!good && IsGone(m, N, f))
    ensures !good && Path(m, N)
  {
    hide Path, Wins, Ahead, AheadJoint, Leads, Placed, Separated;
  }

  lemma StillStanding(m: Mem, N: seq<nat>, f: set<nat>, flag: int, ph: Phase, next: Phase, goal: seq<Window>, good: bool)
    requires !exists x :: x in N && x in f
    requires Stands(m, N, f, flag, ph, next, goal, good) || (!good && IsGone(m, N, f))
    ensures if flag == NULL then good && IsMerged(m, N, f, goal) else
              && Standing(m, N, f, flag, next, goal, good)
              && (Stage(next) < Stage(ph) || (Stage(next) == Stage(ph) && Length(next) < Length(ph)))
  {
    hide Path, Standing, IsMerged;
  }
}
