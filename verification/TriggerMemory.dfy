/** Triggers as nodes in memory, and the loop that merges one of them into a list: it exchanges, copies, links and frees
    nodes, wherever the one to merge stands. */
module TriggerMemory {
  import opened Job
  import opened MergeWindows

  // ---- memory

  const NULL := -1

  /** A node: its window, and the address of the next one. */
  datatype Cell = Cell(win: Window, next: int)

  type Mem = seq<Cell>

  /** The nodes at these addresses are a list, in this order. */
  ghost predicate Path(m: Mem, L: seq<nat>)
  {
    && L != [] && Valid(m, L)
    && (forall i, j :: 0 <= i < j < |L| ==> L[i] != L[j])
    && (forall i {:trigger m[L[i]].next} :: 0 <= i < |L| ==> m[L[i]].next == if i + 1 < |L| then L[i + 1] else NULL)
  }

  predicate Valid(m: Mem, L: seq<nat>)
  {
    forall i :: 0 <= i < |L| ==> L[i] < |m|
  }

  ghost function Wins(m: Mem, L: seq<nat>): (ws: seq<Window>)
    requires Valid(m, L)
    ensures |ws| == |L|
  {
    seq(|L|, i requires 0 <= i < |L| => m[L[i]].win)
  }

  lemma WinsSame(m: Mem, n: Mem, L: seq<nat>)
    requires Valid(m, L) && Valid(n, L) && forall x <- L :: n[x].win == m[x].win
    ensures Wins(n, L) == Wins(m, L)
  {
    assert forall i :: 0 <= i < |L| ==> L[i] in L;
  }

  lemma WinsOne(m: Mem, x: nat, B: seq<nat>)
    requires Valid(m, [x] + B)
    ensures Valid(m, B) && x < |m| && Wins(m, [x] + B) == [m[x].win] + Wins(m, B)
  {
    assert ([x] + B)[0] == x && forall i :: 0 <= i < |B| ==> ([x] + B)[1 + i] == B[i];
  }

  lemma PathSame(m: Mem, n: Mem, L: seq<nat>)
    requires Path(m, L) && |m| <= |n| && forall x: nat :: x < |m| && x in L ==> n[x].next == m[x].next
    ensures Path(n, L)
  {
    assert forall i :: 0 <= i < |L| ==> L[i] in L && L[i] < |m|;
  }

  /** Where the cursor's node points, and which nodes are which. */
  lemma PathAt(m: Mem, D: seq<nat>, R: seq<nat>)
    requires R != [] && Path(m, D + R)
    ensures R[0] < |m| && m[R[0]].next == if |R| > 1 then R[1] else NULL
    ensures |R| > 1 ==> R[1] < |m| && m[R[1]].next == if |R| > 2 then R[2] else NULL
    ensures R[0] !in D && R[0] !in R[1..] && (|R| > 1 ==> R[1] !in D && R[1] !in R[2..] && R[1] != R[0])
    ensures forall x <- D :: x !in R
  {
    var L, k := D + R, |D|;
    assert L[k] == R[0] && m[L[k]].next == if k + 1 < |L| then L[k + 1] else NULL;
    if |R| > 1 {
      assert L[k + 1] == R[1] && m[L[k + 1]].next == if k + 2 < |L| then L[k + 2] else NULL;
    }
    assert forall i :: 0 <= i < |D| ==> L[i] == D[i];
    assert forall i :: 0 <= i < |R| ==> L[k + i] == R[i];
  }

  lemma DistinctWithout(L: seq<nat>, k: nat)
    requires k < |L| && forall i, j :: 0 <= i < j < |L| ==> L[i] != L[j]
    ensures var out := L[..k] + L[k + 1..]; forall i, j :: 0 <= i < j < |out| ==> out[i] != out[j]
  {
  }

  /** The node behind the one at k is taken out. */
  lemma PathWithout(m: Mem, n: Mem, L: seq<nat>, k: nat)
    requires Path(m, L) && k + 1 < |L| && |m| <= |n| && L[k] < |m| && L[k + 1] < |m|
    requires n[L[k]].next == m[L[k + 1]].next
    requires forall x: nat :: x < |m| && x != L[k] && x != L[k + 1] ==> n[x].next == m[x].next
    ensures Path(n, L[..k + 1] + L[k + 2..])
  {
    var out := L[..k + 1] + L[k + 2..];
    DistinctWithout(L, k + 1);
    forall i | 0 <= i < |out|
      ensures out[i] < |n| && n[out[i]].next == if i + 1 < |out| then out[i + 1] else NULL
    {
      var h := if i <= k then i else i + 1;
      assert out[i] == L[h] && m[L[h]].next == if h + 1 < |L| then L[h + 1] else NULL;
      assert m[L[k + 1]].next == if k + 2 < |L| then L[k + 2] else NULL;
      assert i + 1 < |out| ==> out[i + 1] == L[if i + 1 <= k then i + 1 else i + 2];
    }
  }

  /** The node behind the cursor's is taken out. */
  lemma PathUnlink(m: Mem, n: Mem, D: seq<nat>, R: seq<nat>)
    requires |R| > 1 && Path(m, D + R) && R[0] < |m| <= |n| && R[1] < |m|
    requires n[R[0]].next == m[R[1]].next
    requires forall x: nat :: x < |m| && x != R[0] && x != R[1] ==> n[x].next == m[x].next
    ensures Path(n, D + ([R[0]] + R[2..]))
  {
    var L, k := D + R, |D|;
    assert L[k] == R[0] && L[k + 1] == R[1];
    assert D + ([R[0]] + R[2..]) == L[..k + 1] + L[k + 2..];
    PathWithout(m, n, L, k);
  }

  /** A node, with all that is linked behind it, becomes the end of a list. */
  lemma PathAppend(m: Mem, n: Mem, L: seq<nat>, X: seq<nat>)
    requires Path(m, L) && Path(m, X) && L[|L| - 1] < |m| <= |n| && forall x <- X :: x !in L
    requires n[L[|L| - 1]].next == X[0]
    requires forall x: nat :: x < |m| && x != L[|L| - 1] ==> n[x].next == m[x].next
    ensures Path(n, L + X)
  {
    var k, out := |L|, L + X;
    assert forall i :: 0 <= i < |out| ==> out[i] == if i < k then L[i] else X[i - k];
    forall i | 0 <= i < |out|
      ensures out[i] < |n| && n[out[i]].next == if i + 1 < |out| then out[i + 1] else NULL
    {
      if i < k {
        assert L[i] in L && m[L[i]].next == if i + 1 < k then L[i + 1] else NULL;
      } else {
        assert X[i - k] in X && m[X[i - k]].next == if i - k + 1 < |X| then X[i - k + 1] else NULL;
      }
    }
    assert forall i, j :: 0 <= i < j < |out| && i < k <= j ==> out[j] in X && out[i] in L;
  }

  // ---- one turn of the loop

  /** After a turn: memory, cursor, pending node or NULL, and the node freed or NULL. */
  datatype After = After(m: Mem, src: nat, des: int, freed: int)

  function Exchanged(m: Mem, src: nat, des: nat): (n: Mem)
    requires src < |m| && des < |m|
    ensures |n| == |m| && n[src].win == Earlier(m[src].win, m[des].win) && (src != des ==> n[des].win == Later(m[src].win, m[des].win))
    ensures (forall x :: 0 <= x < |m| ==> n[x].next == m[x].next) && forall x :: 0 <= x < |m| && x != src && x != des ==> n[x] == m[x]
    ensures src == des ==> n == m
  {
    if m[src].win.start > m[des].win.start
    then m[src := Cell(m[des].win, m[src].next)][des := Cell(m[src].win, m[des].next)]
    else m
  }

  function Turned(m: Mem, src: nat, des: nat): After
    requires src < |m| && des < |m| && NULL <= m[src].next < |m|
  {
    var e := Exchanged(m, src, des);
    var a, b, nx := e[src].win, e[des].win, e[src].next;
    if a.End() >= b.start then
      var j := e[src := Cell(Joined(a, b), nx)];
      if nx != NULL then After(j[src := Cell(Joined(a, b), j[nx].next)] + [Cell(j[nx].win, NULL)], src, |m|, des)
      else After(j, src, NULL, des)
    else if nx == NULL then After(e[src := Cell(a, des)], src, NULL, NULL)
    else After(e, nx, des, NULL)
  }

  /** A turn changes only the cursor's node and the pending one. */
  ghost predicate Framed(m: Mem, n: Mem, src: nat, des: nat)
  {
    && |m| <= |n| && src < |m| && des < |m| && n[des].next == m[des].next
    && forall x: nat :: x < |m| && x != src && x != des ==> n[x] == m[x]
  }

  /** What a turn does, when the pending node is another than the cursor's. */
  lemma TurnedCases(m: Mem, src: nat, des: nat)
    requires src < |m| && des < |m| && src != des && NULL <= m[src].next < |m| && m[src].next != src
    ensures var a, nx := Turned(m, src, des), m[src].next;
            var lo, hi := Earlier(m[src].win, m[des].win), Later(m[src].win, m[des].win);
            && Framed(m, a.m, src, des)
            && if Touch(m[src].win, m[des].win) then
                 && a.src == src && a.freed == des && a.m[src].win == Joined(lo, hi)
                 && if nx == NULL then a.des == NULL && a.m[src].next == NULL && |a.m| == |m|
                    else && a.des == |m| && |a.m| == |m| + 1 && a.m[src].next == m[nx].next
                         && a.m[|m|] == Cell(if nx == des then hi else m[nx].win, NULL)
               else
                 && |a.m| == |m| && a.freed == NULL && a.m[src].win == lo && a.m[des].win == hi
                 && if nx == NULL then a.des == NULL && a.m[src].next == des
                    else a.src == nx && a.des == des && a.m[src].next == nx
  {
  }

  // ---- the turns with a pending node that is not in the list

  /** What comes of the merge: the windows, the nodes that stay, and whether one is left over. */
  datatype Goal = Goal(ws: seq<Window>, kept: seq<nat>, ends: bool)

  /** The list is D + R, the cursor at the head of R, and d is pending. */
  ghost predicate Outside(m: Mem, D: seq<nat>, R: seq<nat>, d: nat, g: Goal)
  {
    && R != [] && Path(m, D + R) && Valid(m, D) && Valid(m, R) && d < |m| && d !in D + R
    && Wins(m, D) + Insert(Wins(m, R), m[d].win) == g.ws && D + Kept(R, Wins(m, R), m[d].win) == g.kept
    && Ends(Wins(m, R), m[d].win) == g.ends
  }

  lemma WinsAt(m: Mem, R: seq<nat>)
    requires R != [] && Valid(m, R)
    ensures R[0] < |m| && Valid(m, R[1..]) && Wins(m, R) == [m[R[0]].win] + Wins(m, R[1..])
  {
    assert R == [R[0]] + R[1..];
    WinsOne(m, R[0], R[1..]);
  }

  /** The windows of nodes that a turn does not touch. */
  lemma WinsFramed(m: Mem, n: Mem, src: nat, des: nat, L: seq<nat>)
    requires Framed(m, n, src, des) && Valid(m, L) && src !in L && des !in L
    ensures Valid(n, L) && Wins(n, L) == Wins(m, L)
  {
    forall x | x in L
      ensures x < |m| && n[x].win == m[x].win
    {
      var i :| 0 <= i < |L| && L[i] == x;
    }
    WinsSame(m, n, L);
  }

  lemma OutMove(m: Mem, D: seq<nat>, R: seq<nat>, d: nat, g: Goal)
    requires Outside(m, D, R, d, g) && |R| > 1 && !Touch(m[R[0]].win, m[d].win)
    ensures NULL <= m[R[0]].next < |m|
    ensures var a := Turned(m, R[0], d);
            && a.src == R[1] && a.des == d && a.freed == NULL && Framed(m, a.m, R[0], d)
            && Outside(a.m, D + [R[0]], R[1..], d, g) && |a.m| == |m|
            && (forall x: nat :: x < |m| ==> a.m[x].next == m[x].next)
            && TouchAt(Wins(m, R), m[d].win) == 1 + TouchAt(Wins(a.m, R[1..]), a.m[d].win)
  {
    hide Insert, Kept, Ends, Path, Wins, Touch, TouchAt, Earlier, Later, Turned;
    PathAt(m, D, R);
    var n := Turned(m, R[0], d).m;
    WinsAt(m, R);
    StepApart(R, Wins(m, R), m[d].win);
    StepTouch(Wins(m, R), m[d].win);
    NotIn(D, R, d);
    TurnedCases(m, R[0], d);
    WinsFramed(m, n, R[0], d, D);
    WinsFramed(m, n, R[0], d, R[1..]);
    PathSame(m, n, D + R);
    assert D + [R[0]] + R[1..] == D + R;
    WinsSnoc(n, D, R[0]);
    Assoc(Wins(n, D), [n[R[0]].win], Insert(Wins(n, R[1..]), n[d].win));
    Assoc(D, [R[0]], Kept(R[1..], Wins(n, R[1..]), n[d].win));
  }

  lemma OutEnd(m: Mem, D: seq<nat>, x: nat, d: nat, g: Goal)
    requires Outside(m, D, [x], d, g) && !Touch(m[x].win, m[d].win)
    ensures m[x].next == NULL
    ensures var a := Turned(m, x, d);
            && a.des == NULL && a.freed == NULL && Framed(m, a.m, x, d) && a.m[x].next == d
            && g.ends && g.kept == D + [x] && Valid(a.m, D + [x]) && Wins(a.m, D + [x]) + [a.m[d].win] == g.ws
            && |a.m| == |m| && x != d && TouchAt(Wins(m, [x]), m[d].win) == 1
  {
    hide Insert, Kept, Ends, Path, Wins, Touch, TouchAt, Earlier, Later, Turned;
    PathAt(m, D, [x]);
    NotIn(D, [x], d);
    TurnedCases(m, x, d);
    var n := Turned(m, x, d).m;
    WinsAt(m, [x]);
    StepApart([x], Wins(m, [x]), m[d].win);
    StepTouch(Wins(m, [x]), m[d].win);
    NothingTouched(Later(m[x].win, m[d].win));
    Empty(m);
    NotIn(D, [x], d);
    WinsFramed(m, n, x, d, D);
    WinsSnoc(n, D, x);
    Assoc(Wins(n, D), [n[x].win], [n[d].win]);
  }

  lemma OutOver(m: Mem, D: seq<nat>, x: nat, d: nat, g: Goal)
    requires Outside(m, D, [x], d, g) && Touch(m[x].win, m[d].win)
    ensures m[x].next == NULL
    ensures var a := Turned(m, x, d);
            && a.des == NULL && a.freed == d && Framed(m, a.m, x, d) && |a.m| == |m|
            && !g.ends && g.kept == D + [x] && Path(a.m, D + [x]) && Wins(a.m, D + [x]) == g.ws
  {
    hide Insert, Kept, Ends, Path, Wins, Touch, TouchAt, Earlier, Later, Turned;
    PathAt(m, D, [x]);
    NotIn(D, [x], d);
    TurnedCases(m, x, d);
    var n := Turned(m, x, d).m;
    WinsAt(m, [x]);
    StepTouch(Wins(m, [x]), m[d].win);
    StepKept([x], Wins(m, [x]), m[d].win);
    WinsFramed(m, n, x, d, D);
    WinsSnoc(n, D, x);
    PathSame(m, n, D + [x]);
  }

  lemma StepKept(L: seq<nat>, ws: seq<Window>, w: Window)
    requires |L| == |ws| == 1 && Touch(ws[0], w)
    ensures Kept(L, ws, w) == L && !Ends(ws, w)
  {
  }

  lemma OutTake(m: Mem, D: seq<nat>, R: seq<nat>, d: nat, g: Goal)
    requires Outside(m, D, R, d, g) && |R| > 1 && Touch(m[R[0]].win, m[d].win)
    ensures NULL <= m[R[0]].next < |m|
    ensures var a := Turned(m, R[0], d);
            && a.src == R[0] && a.des == |m| && a.freed == d && Framed(m, a.m, R[0], d) && a.m[|m|].next == NULL
            && |a.m| == |m| + 1 && Outside(a.m, D, [R[0]] + R[2..], |m|, g)
  {
    hide Insert, Kept, Ends, Path, Wins, Touch, TouchAt, Earlier, Later, Turned;
    PathAt(m, D, R);
    NotIn(D, R, d);
    TurnedCases(m, R[0], d);
    var n := Turned(m, R[0], d).m;
    var S := [R[0]] + R[2..];
    WinsAt(m, R);
    WinsAt(m, R[1..]);
    assert R[1..][1..] == R[2..] && Wins(m, R)[2..] == Wins(m, R[2..]) && Wins(m, R)[1] == m[R[1]].win;
    Unfold(R, Wins(m, R), m[d].win);
    assert forall y <- R[2..] :: y in R[1..];
    assert R[1] in R;
    WinsFramed(m, n, R[0], d, D);
    WinsFramed(m, n, R[0], d, R[2..]);
    PathUnlink(m, n, D, R);
    WinsOne(n, R[0], R[2..]);
  }

  // ---- the turns with a pending node that is in the list

  /** The list is D + R, the cursor at the head of R, and the pending node is R[q]. The nodes before it, with its window
      worked in, have the windows `ws`, and it is first taken over at `u`. */
  ghost predicate Inside(m: Mem, D: seq<nat>, R: seq<nat>, q: nat, ws: seq<Window>, u: nat)
  {
    && q < |R| && Path(m, D + R) && Valid(m, D) && Valid(m, R) && Valid(m, R[..q])
    && |D| + TouchAt(Wins(m, R[..q]), m[R[q]].win) == u
    && (q > 0 ==> Wins(m, D) + Insert(Wins(m, R[..q]), m[R[q]].win) == ws)
  }

  lemma PrefixWins(m: Mem, R: seq<nat>, q: nat)
    requires 0 < q < |R| && Valid(m, R)
    ensures Valid(m, R[..q]) && Valid(m, R[1..][..q - 1]) && R[0] < |m|
    ensures Wins(m, R[..q]) == [m[R[0]].win] + Wins(m, R[1..][..q - 1])
  {
    assert R[..q] == [R[0]] + R[1..][..q - 1];
    assert forall i :: 0 <= i < q ==> R[..q][i] == R[i];
    WinsOne(m, R[0], R[1..][..q - 1]);
  }

  /** A node of a path occurs once. */
  lemma Once(m: Mem, D: seq<nat>, R: seq<nat>, q: nat)
    requires Path(m, D + R) && 0 < q < |R|
    ensures R[q] < |m| && R[q] !in D && R[q] != R[0] && R[q] !in R[1..][..q - 1] && R[0] !in R[1..]
    ensures q > 1 ==> R[q] in R[2..]
  {
    var L, k := D + R, |D|;
    assert forall i :: 0 <= i < |D| ==> L[i] == D[i];
    assert forall i :: 0 <= i < |R| ==> L[k + i] == R[i];
    assert q > 1 ==> R[2..][q - 2] == R[q];
  }

  lemma InMove(m: Mem, D: seq<nat>, R: seq<nat>, q: nat, ws: seq<Window>, u: nat)
    requires Inside(m, D, R, q, ws, u) && q > 0 && !Touch(m[R[0]].win, m[R[q]].win)
    ensures NULL <= m[R[0]].next < |m| && u > |D|
    ensures var a := Turned(m, R[0], R[q]);
            && a.src == R[1] && a.des == R[q] && a.freed == NULL && Framed(m, a.m, R[0], R[q]) && |a.m| == |m|
            && Inside(a.m, D + [R[0]], R[1..], q - 1, ws, u)
  {
    hide Insert, Path, Wins, Touch, Earlier, Later, Turned;
    PathAt(m, D, R);
    Once(m, D, R, q);
    TurnedCases(m, R[0], R[q]);
    var n := Turned(m, R[0], R[q]).m;
    var B := R[1..][..q - 1];
    PrefixWins(m, R, q);
    StepTouch(Wins(m, R[..q]), m[R[q]].win);
    assert forall y <- B :: y in R[1..];
    WinsFramed(m, n, R[0], R[q], D);
    WinsFramed(m, n, R[0], R[q], B);
    PathSame(m, n, D + R);
    assert D + [R[0]] + R[1..] == D + R && R[1..][q - 1] == R[q];
    WinsSnoc(n, D, R[0]);
    if q > 1 {
      Assoc(Wins(n, D), [n[R[0]].win], Insert(Wins(n, B), n[R[q]].win));
    }
  }

  lemma StepTouch(ws: seq<Window>, w: Window)
    requires ws != []
    ensures TouchAt(ws, w) == if Touch(ws[0], w) then 0 else 1 + TouchAt(ws[1..], Later(ws[0], w))
    ensures !Touch(ws[0], w) && |ws| > 1 ==> Insert(ws, w) == [Earlier(ws[0], w)] + Insert(ws[1..], Later(ws[0], w))
    ensures Touch(ws[0], w) && |ws| == 1 ==> Insert(ws, w) == [Joined(Earlier(ws[0], w), Later(ws[0], w))]
  {
  }

  /** The pending node is taken over by the one before it: it leaves the list, and a copy of it is pending. */
  lemma InTake(m: Mem, D: seq<nat>, R: seq<nat>, ws: seq<Window>, u: nat)
    requires Inside(m, D, R, 1, ws, u) && Touch(m[R[0]].win, m[R[1]].win)
    ensures NULL <= m[R[0]].next < |m| && u == |D|
    ensures var a := Turned(m, R[0], R[1]);
            && a.src == R[0] && a.des == |m| && a.freed == R[1] && Framed(m, a.m, R[0], R[1]) && a.m[|m|].next == NULL
            && |a.m| == |m| + 1 && Path(a.m, D + ([R[0]] + R[2..])) && R[1] !in D + ([R[0]] + R[2..])
            && Valid(a.m, D) && Wins(a.m, D) + [a.m[R[0]].win] == ws && Within(a.m[|m|].win, a.m[R[0]].win)
            && Valid(m, R[2..]) && Valid(a.m, R[2..]) && Wins(a.m, R[2..]) == Wins(m, R[2..])
  {
    hide Insert, Path, Wins, Touch, Earlier, Later, Turned;
    PathAt(m, D, R);
    TurnedCases(m, R[0], R[1]);
    var n := Turned(m, R[0], R[1]).m;
    PrefixWins(m, R, 1);
    StepTouch(Wins(m, R[..1]), m[R[1]].win);
    Widest(m[R[0]].win, m[R[1]].win);
    assert R[1..][..0] == [] && forall y <- R[2..] :: y in R[1..];
    WinsAt(m, R);
    WinsAt(m, R[1..]);
    assert R[1..][1..] == R[2..];
    WinsFramed(m, n, R[0], R[1], D);
    WinsFramed(m, n, R[0], R[1], R[2..]);
    PathUnlink(m, n, D, R);
    Empty(m);
  }

  lemma Empty(m: Mem)
    ensures Valid(m, []) && Wins(m, []) == []
  {
  }

  lemma Widest(a: Window, b: Window)
    requires Touch(a, b)
    ensures Within(Later(a, b), Joined(Earlier(a, b), Later(a, b)))
  {
  }

  lemma Assoc<T>(a: seq<T>, b: seq<T>, c: seq<T>)
    ensures a + b + c == a + (b + c)
  {
  }

  lemma NotIn(D: seq<nat>, R: seq<nat>, d: nat)
    requires d !in D + R && R != []
    ensures d !in D && d !in R && d !in R[1..] && d != R[0]
  {
    assert R[0] in R;
    assert forall x <- D :: x in D + R;
    assert forall x <- R :: x in D + R;
  }

  lemma WinsSnoc(m: Mem, D: seq<nat>, x: nat)
    requires Valid(m, D) && x < |m|
    ensures Valid(m, D + [x]) && Wins(m, D + [x]) == Wins(m, D) + [m[x].win]
  {
  }

  /** The three functions at a node that the pending window does not touch. */
  lemma StepApart(L: seq<nat>, ws: seq<Window>, w: Window)
    requires |L| == |ws| > 0 && !Touch(ws[0], w)
    ensures var a, b := Earlier(ws[0], w), Later(ws[0], w);
            if |L| == 1 then Insert(ws, w) == [a, b] && Kept(L, ws, w) == L && Ends(ws, w)
            else
              && Insert(ws, w) == [a] + Insert(ws[1..], b) && Kept(L, ws, w) == [L[0]] + Kept(L[1..], ws[1..], b)
              && Ends(ws, w) == Ends(ws[1..], b)
  {
  }

  // ---- one merge

  /** What a merge of the node `tr` into the list L leaves alone: every other node, and those of the list that are no
      longer in it. Only `tr` and nodes of its own making are freed. */
  ghost predicate Spares(m0: Mem, m: Mem, L: seq<nat>, tr: nat, out: seq<nat>, f0: set<nat>, f: set<nat>)
  {
    && |m0| <= |m| && (forall x: nat :: x < |m0| && x !in out && x != tr ==> m[x] == m0[x])
    && (forall x <- out :: x in L || |m0| <= x < |m|)
    && f0 <= f && (forall x <- f :: x in f0 || x == tr || |m0| <= x < |m|)
  }

  /** The list is `kept`, and a new node if one was left over. */
  predicate Extended(out: seq<nat>, kept: seq<nat>, ends: bool, n: nat)
  {
    if ends then |out| == |kept| + 1 && out[..|kept|] == kept && out[|kept|] >= n else out == kept
  }

  /** The list's last node points to `tr`, and that is the only link that has changed. */
  ghost predicate Linked(m0: Mem, m: Mem, L: seq<nat>, tr: nat)
  {
    && L != [] && Valid(m0, L) && Valid(m, L) && |m| == |m0| && tr < |m| && m[L[|L| - 1]].next == tr
    && forall x: nat :: x < |m0| && x != L[|L| - 1] ==> m[x].next == m0[x].next
  }

  /** What a merge is to come to, for a node that is not in the list. */
  function OutGoal(L: seq<nat>, ws: seq<Window>, w: Window): Goal
    requires |L| == |ws| > 0
  {
    Goal(Insert(ws, w), Kept(L, ws, w), Ends(ws, w))
  }

  /** The same for the node at p: the list before it with its window worked in, and what the last of these windows makes
      of those behind it. */
  function InGoal(L: seq<nat>, ws: seq<Window>, p: nat): Goal
    requires |L| == |ws| && 0 < p < |L|
  {
    var front := Insert(ws[..p], ws[p]);
    var n, b := |front| - 1, front[|front| - 1];
    var t := Absorbed(b, ws[p + 1..]);
    Goal(front[..n] + Settled(b, ws[p + 1..]),
         L[..p] + if t < |L| - p - 1 then L[p + 1..][t + 1..] else [],
         t < |L| - p - 1)
  }

  /** While nothing has happened but exchanges. */
  ghost predicate Calm(m0: Mem, m: Mem, L: seq<nat>, D: seq<nat>, R: seq<nat>, f0: set<nat>, f: set<nat>)
  {
    D + R == L && |m| == |m0| && f == f0 && forall x: nat :: x < |m0| ==> m[x].next == m0[x].next
  }

  /** What the loop has left alone so far. */
  ghost predicate Sparing(m0: Mem, m: Mem, L: seq<nat>, tr: nat, D: seq<nat>, R: seq<nat>, f0: set<nat>, f: set<nat>)
  {
    && R != [] && |m0| <= |m| && (forall x: nat :: x < |m0| && x !in D && x != R[0] && x != tr ==> m[x] == m0[x])
    && (forall x <- D + R :: x in L && x !in f)
    && f0 <= f && (forall x <- f :: x in f0 || x == tr || |m0| <= x < |m|)
  }

  /** What the windows behind the node at p must be for the rest of the merge: apart, and not before the last window. */
  ghost predicate InReady(m: Mem, L: seq<nat>, p: nat)
  {
    && 0 < p < |L| && Valid(m, L)
    && var ws := Wins(m, L);
       var front := Insert(ws[..p], ws[p]);
       TouchAt(ws[..p], ws[p]) == p - 1 ==> Behind(front[|front| - 1], ws[p + 1..])
  }

  /** The list is what the merge is to come to, and none of its nodes has been freed. */
  ghost predicate Meets(m: Mem, out: seq<nat>, g: Goal, n: nat, f: set<nat>)
  {
    Path(m, out) && Wins(m, out) == g.ws && (forall x <- out :: x !in f) && Extended(out, g.kept, g.ends, n)
  }

  /** The whole of what is known at the start. */
  ghost predicate Given(m: Mem, L: seq<nat>, tr: nat, p: nat, f: set<nat>)
  {
    && Path(m, L) && L != [] && Valid(m, L) && tr < |m| && (tr in L ==> p < |L| && L[p] == tr && InReady(m, L, p))
    && (forall x <- L :: x !in f) && tr !in f && forall x <- f :: x < |m|
  }

  ghost function GoalOf(m: Mem, L: seq<nat>, tr: nat, p: nat): Goal
    requires Valid(m, L) && L != [] && tr < |m| && (tr in L ==> 0 < p < |L|)
  {
    if tr in L then InGoal(L, Wins(m, L), p) else OutGoal(L, Wins(m, L), m[tr].win)
  }

  /** Where the node's window is first taken over, in the list or in the part before the node. */
  ghost function FirstTaken(m: Mem, L: seq<nat>, tr: nat, p: nat): nat
    requires Valid(m, L) && tr < |m| && (tr in L ==> 0 < p < |L|)
  {
    var ws := Wins(m, L);
    if tr in L then TouchAt(ws[..p], ws[p]) else TouchAt(ws, m[tr].win)
  }

  /** The loop's invariant. */
  ghost predicate Going(m0: Mem, m: Mem, L: seq<nat>, tr: nat, p: nat, f0: set<nat>, f: set<nat>,
                        D: seq<nat>, R: seq<nat>, src: nat, des: int, inside: bool, q: nat)
  {
    && Given(m0, L, tr, p, f0) && Sparing(m0, m, L, tr, D, R, f0, f)
    && var g, u := GoalOf(m0, L, tr, p), FirstTaken(m0, L, tr, p);
       if des < 0 then
         && des == NULL && tr in f && Path(m, D + R) && Wins(m, D + R) == g.ws && D + R == g.kept && !g.ends
         && Taken(L, tr, p, u)
       else R[0] == src && if inside then
         && Calm(m0, m, L, D, R, f0, f) && des == tr && tr in L && |D| + q == p
         && Inside(m, D, R, q, Insert(Wins(m0, L)[..p], Wins(m0, L)[p]), u)
       else
         && Outside(m, D, R, des, g)
         && if des == tr then
              tr !in L && Calm(m0, m, L, D, R, f0, f) && |D| + TouchAt(Wins(m, R), m[tr].win) == u
            else |m0| <= des && m[des].next == NULL && des !in f && tr in f && Taken(L, tr, p, u)
  }

  /** The node's window has been taken over; a node of the list by the one before it. */
  predicate Taken(L: seq<nat>, tr: nat, p: nat, u: nat)
  {
    if tr in L then u + 1 == p else u < |L|
  }

  lemma Begun(m: Mem, L: seq<nat>, tr: nat, p: nat, f: set<nat>)
    requires Given(m, L, tr, p, f) && L[0] != tr
    ensures Going(m, m, L, tr, p, f, f, [], L, L[0], tr, tr in L, p)
  {
    hide Path, Insert, Kept, Ends, TouchAt, Settled, Absorbed;
    assert [] + L == L;
    Empty(m);
    var ws := Wins(m, L);
    if tr in L {
      assert forall i :: 0 <= i < p ==> L[..p][i] == L[i];
      assert Wins(m, L[..p]) == ws[..p];
      assert [] + Insert(ws[..p], ws[p]) == Insert(ws[..p], ws[p]);
    } else {
      assert [] + Insert(ws, m[tr].win) == Insert(ws, m[tr].win);
      var kept := Kept(L, ws, m[tr].win);
      assert [] + kept == kept;
    }
  }

  /** The list after a node has been taken over. */
  function Shortened(R: seq<nat>): (S: seq<nat>)
    requires R != []
    ensures S != [] && S[0] == R[0]
  {
    if |R| > 1 then [R[0]] + R[2..] else R
  }

  /** What a turn that frees the pending node leaves alone. */
  lemma SparingTake(m0: Mem, m: Mem, n: Mem, L: seq<nat>, tr: nat, D: seq<nat>, R: seq<nat>, f0: set<nat>, f: set<nat>, des: nat)
    requires Sparing(m0, m, L, tr, D, R, f0, f) && Framed(m, n, R[0], des) && des !in D + Shortened(R)
    requires des == tr || |m0| <= des
    ensures Sparing(m0, n, L, tr, D, Shortened(R), f0, f + {des})
  {
    assert forall x <- D + Shortened(R) :: x in D + R;
  }

  /** What a turn that only exchanges leaves alone. */
  lemma SparingMove(m0: Mem, m: Mem, n: Mem, L: seq<nat>, tr: nat, D: seq<nat>, R: seq<nat>, f0: set<nat>, f: set<nat>, des: nat)
    requires Sparing(m0, m, L, tr, D, R, f0, f) && Framed(m, n, R[0], des) && |n| == |m| && |R| > 1
    requires des == tr || |m0| <= des
    ensures Sparing(m0, n, L, tr, D + [R[0]], R[1..], f0, f)
  {
    assert D + [R[0]] + R[1..] == D + R;
    assert R[0] in D + [R[0]];
    forall x: nat | x < |m0| && x !in D + [R[0]] && x != R[1..][0] && x != tr
      ensures n[x] == m0[x]
    {
      assert x !in D && x != R[0];
    }
  }

  lemma StepOutFacts(m0: Mem, m: Mem, L: seq<nat>, tr: nat, p: nat, f0: set<nat>, f: set<nat>, D: seq<nat>, R: seq<nat>,
                src: nat, des: nat, q: nat)
    requires Going(m0, m, L, tr, p, f0, f, D, R, src, des, false, q)
    ensures R != [] && src == R[0] < |m| && des < |m| && src != des && des !in f && des !in D + R && des !in D + Shortened(R)
    ensures m[src].next == (if |R| > 1 then R[1] else NULL) && NULL <= m[src].next < |m| && m[src].next != src
    ensures src !in f && m[src].next !in f
    ensures Valid(m, R) && m[R[0]].win == Wins(m, R)[0]
  {
    hide Insert, Kept, Ends, Path, Touch, Earlier, Later, TouchAt, InGoal, OutGoal;
    PathAt(m, D, R);
    NotIn(D, R, des);
    assert forall x <- D + Shortened(R) :: x in D + R;
    assert des == tr ==> tr !in f;
  }

  lemma StepOutTakeMore(m0: Mem, m: Mem, L: seq<nat>, tr: nat, p: nat, f0: set<nat>, f: set<nat>, D: seq<nat>, R: seq<nat>,
                    src: nat, des: nat, q: nat)
    requires Going(m0, m, L, tr, p, f0, f, D, R, src, des, false, q)
    requires src < |m| && Touch(m[src].win, m[des].win) && R != [] && |R| > 1
    ensures NULL <= m[src].next < |m|
    ensures var a := Turned(m, src, des);
            && a.freed == des && Going(m0, a.m, L, tr, p, f0, f + {des}, D, Shortened(R), a.src, a.des, false, q)
  {
    StepOutFacts(m0, m, L, tr, p, f0, f, D, R, src, des, q);
    hide Insert, Kept, Ends, Path, Wins, Touch, Earlier, Later, TouchAt, Turned, InGoal, OutGoal, GoalOf, FirstTaken, Given;
    hide Calm, Valid;
    OutTake(m, D, R, des, GoalOf(m0, L, tr, p));
    SparingTake(m0, m, Turned(m, src, des).m, L, tr, D, R, f0, f, des);
    UntouchedInside(m0, m, L, tr, p, f0, f, D, R, src, des, q);
  }

  lemma StepOutTakeLast(m0: Mem, m: Mem, L: seq<nat>, tr: nat, p: nat, f0: set<nat>, f: set<nat>, D: seq<nat>, R: seq<nat>,
                    src: nat, des: nat, q: nat)
    requires Going(m0, m, L, tr, p, f0, f, D, R, src, des, false, q)
    requires src < |m| && Touch(m[src].win, m[des].win) && R != [] && |R| == 1
    ensures NULL <= m[src].next < |m|
    ensures var a := Turned(m, src, des);
            && a.freed == des && Going(m0, a.m, L, tr, p, f0, f + {des}, D, Shortened(R), a.src, a.des, false, q) && a.des == NULL
  {
    StepOutFacts(m0, m, L, tr, p, f0, f, D, R, src, des, q);
    hide Insert, Kept, Ends, Path, Wins, Touch, Earlier, Later, TouchAt, Turned, InGoal, OutGoal, GoalOf, FirstTaken, Given;
    hide Calm, Valid;
    assert R == [src];
    OutOver(m, D, src, des, GoalOf(m0, L, tr, p));
    SparingTake(m0, m, Turned(m, src, des).m, L, tr, D, R, f0, f, des);
    UntouchedInside(m0, m, L, tr, p, f0, f, D, R, src, des, q);
  }

  lemma StepOutTake(m0: Mem, m: Mem, L: seq<nat>, tr: nat, p: nat, f0: set<nat>, f: set<nat>, D: seq<nat>, R: seq<nat>,
                src: nat, des: nat, q: nat)
    requires Going(m0, m, L, tr, p, f0, f, D, R, src, des, false, q)
    requires src < |m| && Touch(m[src].win, m[des].win)
    ensures NULL <= m[src].next < |m|
    ensures var a := Turned(m, src, des);
            && a.freed == des && Going(m0, a.m, L, tr, p, f0, f + {des}, D, Shortened(R), a.src, a.des, false, q)
            && (|R| == 1 ==> a.des == NULL)
  {
    hide Going, Turned, Touch;
    StepOutFacts(m0, m, L, tr, p, f0, f, D, R, src, des, q);
    if |R| > 1 {
      StepOutTakeMore(m0, m, L, tr, p, f0, f, D, R, src, des, q);
    } else {
      StepOutTakeLast(m0, m, L, tr, p, f0, f, D, R, src, des, q);
    }
  }

  /** The first window taken over is that of the node merged. */
  lemma UntouchedInside(m0: Mem, m: Mem, L: seq<nat>, tr: nat, p: nat, f0: set<nat>, f: set<nat>, D: seq<nat>, R: seq<nat>,
                src: nat, des: nat, q: nat)
    requires Going(m0, m, L, tr, p, f0, f, D, R, src, des, false, q)
    requires src < |m| && des < |m| && Touch(m[src].win, m[des].win)
    ensures Taken(L, tr, p, FirstTaken(m0, L, tr, p))
  {
    StepOutFacts(m0, m, L, tr, p, f0, f, D, R, src, des, q);
    StepTouch(Wins(m, R), m[des].win);
    hide Insert, Kept, Ends, Path, Wins, Touch, TouchAt, InGoal, OutGoal;
    assert des == tr ==> |D| + |R| == |L|;
  }

  lemma StepOutMove(m0: Mem, m: Mem, L: seq<nat>, tr: nat, p: nat, f0: set<nat>, f: set<nat>, D: seq<nat>, R: seq<nat>,
                src: nat, des: nat, q: nat)
    requires Going(m0, m, L, tr, p, f0, f, D, R, src, des, false, q)
    requires src < |m| && !Touch(m[src].win, m[des].win) && |R| > 1
    ensures NULL <= m[src].next < |m|
    ensures var a := Turned(m, src, des);
            && a.freed == NULL && a.des == des
            && Going(m0, a.m, L, tr, p, f0, f, D + [R[0]], R[1..], a.src, a.des, false, q)
  {
    StepOutFacts(m0, m, L, tr, p, f0, f, D, R, src, des, q);
    hide Insert, Kept, Ends, Path, Wins, Touch, Earlier, Later, TouchAt, Turned, InGoal, OutGoal, GoalOf, FirstTaken, Given, Valid;
    hide Sparing, Outside, Calm, Framed;
    var n := Turned(m, src, des).m;
    OutMove(m, D, R, des, GoalOf(m0, L, tr, p));
    SparingMove(m0, m, n, L, tr, D, R, f0, f, des);
    if des == tr {
      CalmMove(m0, m, n, L, D, R, f0, f);
    }
  }

  lemma CalmMove(m0: Mem, m: Mem, n: Mem, L: seq<nat>, D: seq<nat>, R: seq<nat>, f0: set<nat>, f: set<nat>)
    requires Calm(m0, m, L, D, R, f0, f) && R != [] && |n| == |m| && forall x: nat :: x < |m| ==> n[x].next == m[x].next
    ensures Calm(m0, n, L, D + [R[0]], R[1..], f0, f)
  {
    assert D + [R[0]] + R[1..] == D + R;
  }

  lemma CalmLast(m0: Mem, m: Mem, n: Mem, L: seq<nat>, D: seq<nat>, x: nat, f0: set<nat>, f: set<nat>, tr: nat)
    requires Calm(m0, m, L, D, [x], f0, f) && Framed(m, n, x, tr) && |n| == |m| && n[x].next == tr && Valid(m0, L)
    requires Sparing(m0, m, L, tr, D, [x], f0, f)
    ensures f == f0 && L == D + [x] && Linked(m0, n, L, tr) && Spares(m0, n, L, tr, L, f0, f)
  {
    assert L[|L| - 1] == x && x in L && forall y <- D :: y in L;
    forall y: nat | y < |m0| && y !in L && y != tr
      ensures n[y] == m0[y]
    {
      assert y !in D && y != x;
    }
  }

  lemma StepOutLast(m0: Mem, m: Mem, L: seq<nat>, tr: nat, p: nat, f0: set<nat>, f: set<nat>, D: seq<nat>, R: seq<nat>,
                src: nat, des: nat, q: nat)
    requires Going(m0, m, L, tr, p, f0, f, D, R, src, des, false, q)
    requires src < |m| && !Touch(m[src].win, m[des].win) && R == [src] && des == tr
    ensures NULL <= m[src].next < |m|
    ensures var a := Turned(m, src, des);
            && a.freed == NULL && a.des == NULL
            && tr !in L && FirstTaken(m0, L, tr, p) == |L| && Linked(m0, a.m, L, tr) && f == f0
            && Wins(a.m, L) + [a.m[tr].win] == GoalOf(m0, L, tr, p).ws && Spares(m0, a.m, L, tr, L, f0, f)
  {
    StepOutFacts(m0, m, L, tr, p, f0, f, D, R, src, des, q);
    assert Valid(m0, L) && |D + R| == |L|;
    hide Insert, Kept, Ends, Path, Wins, Touch, Earlier, Later, TouchAt, Turned, InGoal, OutGoal, GoalOf, FirstTaken, Given, Valid;
    hide Sparing, Outside, Calm, Framed;
    OutEnd(m, D, src, des, GoalOf(m0, L, tr, p));
    CalmLast(m0, m, Turned(m, src, des).m, L, D, src, f0, f, tr);
  }

  lemma StepOutEnd(m0: Mem, m: Mem, L: seq<nat>, tr: nat, p: nat, f0: set<nat>, f: set<nat>, D: seq<nat>, R: seq<nat>,
                src: nat, des: nat, q: nat)
    requires Going(m0, m, L, tr, p, f0, f, D, R, src, des, false, q)
    requires src < |m| && !Touch(m[src].win, m[des].win) && R == [src] && des != tr
    ensures NULL <= m[src].next < |m|
    ensures var a := Turned(m, src, des);
            && a.freed == NULL && a.des == NULL
            && Meets(a.m, D + R + [des], GoalOf(m0, L, tr, p), |m0|, f) && tr in f
            && Spares(m0, a.m, L, tr, D + R + [des], f0, f) && Taken(L, tr, p, FirstTaken(m0, L, tr, p))
  {
    StepOutFacts(m0, m, L, tr, p, f0, f, D, R, src, des, q);
    hide Insert, Kept, Ends, Path, Wins, Touch, Earlier, Later, TouchAt, Turned, InGoal, OutGoal, GoalOf, FirstTaken, Given, Valid;
    hide Calm, Sparing, Outside;
    var g, n := GoalOf(m0, L, tr, p), Turned(m, src, des).m;
    OutEnd(m, D, src, des, g);
    OutEndMeets(m, n, D, src, des, g);
    SparesEnd(m0, m, n, L, tr, D, src, f0, f, des);
    EndMeets(n, D + R, des, g, |m0|, f);
  }

  lemma EndMeets(n: Mem, E: seq<nat>, des: nat, g: Goal, k: nat, f: set<nat>)
    requires Path(n, E + [des]) && Wins(n, E + [des]) == g.ws && des >= k && (forall x <- E + [des] :: x !in f) && g.ends && g.kept == E
    ensures Meets(n, E + [des], g, k, f)
  {
    hide Path, Wins;
    assert (E + [des])[..|E|] == E;
  }

  lemma OutEndMeets(m: Mem, n: Mem, D: seq<nat>, x: nat, d: nat, g: Goal)
    requires Outside(m, D, [x], d, g) && Framed(m, n, x, d) && |n| == |m| && n[x].next == d && m[d].next == NULL && x != d
    requires Valid(n, D + [x]) && Wins(n, D + [x]) + [n[d].win] == g.ws
    ensures Path(n, D + [x] + [d]) && Wins(n, D + [x] + [d]) == g.ws
  {
    hide Insert, Kept, Ends, Wins;
    var E := D + [x];
    assert E[|E| - 1] == x;
    PathOne(m, d);
    hide Path;
    PathAppend(m, n, E, [d]);
    WinsSnoc(n, E, d);
  }

  lemma SparesEnd(m0: Mem, m: Mem, n: Mem, L: seq<nat>, tr: nat, D: seq<nat>, x: nat, f0: set<nat>, f: set<nat>, d: nat)
    requires Sparing(m0, m, L, tr, D, [x], f0, f) && Framed(m, n, x, d) && |m0| <= d && d !in f
    ensures Spares(m0, n, L, tr, D + [x] + [d], f0, f) && forall y <- D + [x] + [d] :: y !in f
  {
    forall y | y in D + [x] + [d]
      ensures y !in f && (y in L || |m0| <= y < |n|)
    {
      assert y in D + [x] || y == d;
    }
    forall y: nat | y < |m0| && y !in D + [x] + [d] && y != tr
      ensures n[y] == m0[y]
    {
      assert y !in D && y != x && y != d;
    }
  }

  lemma PathOne(m: Mem, x: nat)
    requires x < |m| && m[x].next == NULL
    ensures Path(m, [x])
  {
  }

  lemma NothingTouched(w: Window)
    ensures TouchAt([], w) == 0
  {
  }

  lemma StepInFacts(m0: Mem, m: Mem, L: seq<nat>, tr: nat, p: nat, f0: set<nat>, f: set<nat>, D: seq<nat>, R: seq<nat>, q: nat)
    requires R != [] && Going(m0, m, L, tr, p, f0, f, D, R, R[0], tr, true, q)
    ensures R[0] < |m| && tr < |m| && tr !in f && q < |R| && R[q] == tr && D + R == L && tr in L && |D| + q == p > 0
    ensures m[R[0]].next == (if |R| > 1 then R[1] else NULL) && NULL <= m[R[0]].next < |m|
    ensures R[0] !in f && m[R[0]].next !in f
    ensures R[0] !in D && R[0] !in R[1..] && (q > 0 ==> R[0] != tr) && (q == 0 || q > 1 ==> tr in Shortened(R))
  {
    hide Insert, Kept, Ends, Path, TouchAt, InGoal, OutGoal;
    PathAt(m, D, R);
    assert R[q] in R;
    if q > 0 {
      Once(m, D, R, q);
    }
    assert q > 1 ==> R[2..][q - 2] == tr;
  }

  lemma StepInMove(m0: Mem, m: Mem, L: seq<nat>, tr: nat, p: nat, f0: set<nat>, f: set<nat>, D: seq<nat>, R: seq<nat>, q: nat)
    requires R != [] && Going(m0, m, L, tr, p, f0, f, D, R, R[0], tr, true, q)
    requires q > 0 && R[0] < |m| && tr < |m| && !Touch(m[R[0]].win, m[tr].win)
    ensures NULL <= m[R[0]].next < |m| && |R| > 1
    ensures var a := Turned(m, R[0], tr);
            && a.freed == NULL && a.des == tr
            && Going(m0, a.m, L, tr, p, f0, f, D + [R[0]], R[1..], a.src, a.des, true, q - 1)
  {
    StepInFacts(m0, m, L, tr, p, f0, f, D, R, q);
    var ws, u := Insert(Wins(m0, L)[..p], Wins(m0, L)[p]), FirstTaken(m0, L, tr, p);
    hide Insert, Kept, Ends, Path, Wins, Touch, Earlier, Later, TouchAt, Turned, InGoal, OutGoal, GoalOf, FirstTaken, Given, Valid;
    hide Sparing, Inside, Calm, Framed;
    var n := Turned(m, R[0], tr).m;
    InMove(m, D, R, q, ws, u);
    SparingMove(m0, m, n, L, tr, D, R, f0, f, tr);
    CalmMove(m0, m, n, L, D, R, f0, f);
  }

  /** What is left alone by a turn that frees a node of the list. */
  lemma SparesBad(m0: Mem, m: Mem, n: Mem, L: seq<nat>, tr: nat, D: seq<nat>, R: seq<nat>, f0: set<nat>, f: set<nat>)
    requires Sparing(m0, m, L, tr, D, R, f0, f) && |m| <= |n|
    requires forall x: nat :: x < |m| && x != R[0] && x != tr ==> n[x] == m[x]
    ensures Spares(m0, n, L, tr, D + Shortened(R), f0, f + {tr})
  {
    assert forall x <- D + Shortened(R) :: x in D + R;
    assert R[0] in Shortened(R);
    forall y: nat | y < |m0| && y !in D + Shortened(R) && y != tr
      ensures n[y] == m0[y]
    {
      assert y !in D && y != R[0];
    }
  }

  lemma FirstTakenAt(m0: Mem, m: Mem, L: seq<nat>, tr: nat, p: nat, f0: set<nat>, f: set<nat>, D: seq<nat>, R: seq<nat>, q: nat)
    requires R != [] && Going(m0, m, L, tr, p, f0, f, D, R, R[0], tr, true, q)
    requires R[0] < |m| && tr < |m| && (q > 0 ==> Touch(m[R[0]].win, m[tr].win))
    ensures FirstTaken(m0, L, tr, p) == |D|
  {
    StepInFacts(m0, m, L, tr, p, f0, f, D, R, q);
    if q == 0 {
      assert R[..0] == [];
      Empty(m);
      NothingTouched(m[tr].win);
    } else {
      PrefixWins(m, R, q);
      StepTouch(Wins(m, R[..q]), m[tr].win);
    }
  }

  /** The node meets itself: it is freed and is still in the list. */
  lemma StepInSelf(m0: Mem, m: Mem, L: seq<nat>, tr: nat, p: nat, f0: set<nat>, f: set<nat>, D: seq<nat>, R: seq<nat>, q: nat)
    requires R != [] && Going(m0, m, L, tr, p, f0, f, D, R, R[0], tr, true, q)
    requires R[0] < |m| && tr < |m| && q == 0
    ensures NULL <= m[R[0]].next < |m|
    ensures var a := Turned(m, R[0], tr);
            && a.freed == tr && tr in D + Shortened(R) && Spares(m0, a.m, L, tr, D + Shortened(R), f0, f + {tr})
            && FirstTaken(m0, L, tr, p) + 1 != p
            && Path(a.m, D + Shortened(R)) && (D + Shortened(R))[0] == L[0]
  {
    StepInFacts(m0, m, L, tr, p, f0, f, D, R, q);
    FirstTakenAt(m0, m, L, tr, p, f0, f, D, R, q);
    SelfTurn(m, tr);
    StillLinked(m, Turned(m, R[0], tr).m, D, R, tr);
    hide Insert, Kept, Ends, Path, Wins, Touch, TouchAt, Turned, InGoal, OutGoal, GoalOf, FirstTaken, Given, Valid, Inside, Calm;
    SparesBad(m0, m, Turned(m, R[0], tr).m, L, tr, D, R, f0, f);
  }

  /** The node is taken over before the one in front of it: it is freed and is still in the list. */
  lemma StepInEarly(m0: Mem, m: Mem, L: seq<nat>, tr: nat, p: nat, f0: set<nat>, f: set<nat>, D: seq<nat>, R: seq<nat>, q: nat)
    requires R != [] && Going(m0, m, L, tr, p, f0, f, D, R, R[0], tr, true, q)
    requires R[0] < |m| && tr < |m| && q > 1 && Touch(m[R[0]].win, m[tr].win)
    ensures NULL <= m[R[0]].next < |m|
    ensures var a := Turned(m, R[0], tr);
            && a.freed == tr && tr in D + Shortened(R) && Spares(m0, a.m, L, tr, D + Shortened(R), f0, f + {tr})
            && FirstTaken(m0, L, tr, p) + 1 != p
            && Path(a.m, D + Shortened(R)) && (D + Shortened(R))[0] == L[0]
  {
    StepInFacts(m0, m, L, tr, p, f0, f, D, R, q);
    FirstTakenAt(m0, m, L, tr, p, f0, f, D, R, q);
    hide Insert, Kept, Ends, Wins, Touch, TouchAt, Turned, InGoal, OutGoal, GoalOf, FirstTaken, Given, Path, Valid, Inside, Calm;
    TurnedCases(m, R[0], tr);
    EarlyLinked(m0, m, L, tr, p, f0, f, D, R, q);
    SparesBad(m0, m, Turned(m, R[0], tr).m, L, tr, D, R, f0, f);
  }

  lemma EarlyLinked(m0: Mem, m: Mem, L: seq<nat>, tr: nat, p: nat, f0: set<nat>, f: set<nat>, D: seq<nat>, R: seq<nat>, q: nat)
    requires R != [] && Going(m0, m, L, tr, p, f0, f, D, R, R[0], tr, true, q)
    requires R[0] < |m| && tr < |m| && q > 1 && Touch(m[R[0]].win, m[tr].win)
    ensures NULL <= m[R[0]].next < |m|
    ensures var n := Turned(m, R[0], tr).m; Path(n, D + Shortened(R)) && (D + Shortened(R))[0] == L[0]
  {
    hide Insert, Kept, Ends, Wins, Touch, TouchAt, Turned, InGoal, OutGoal, GoalOf, FirstTaken, Given, Path, Valid, Calm, Sparing;
    StepInFacts(m0, m, L, tr, p, f0, f, D, R, q);
    TurnedCases(m, R[0], tr);
    PathAt(m, D, R);
    StillLinked(m, Turned(m, R[0], tr).m, D, R, tr);
  }

  /** The windows behind the cursor are as they were. */
  lemma WinsBehind(m0: Mem, m: Mem, L: seq<nat>, tr: nat, D: seq<nat>, R: seq<nat>, f0: set<nat>, f: set<nat>)
    requires Sparing(m0, m, L, tr, D, R, f0, f) && D + R == L && |R| > 1 && R[1] == tr && Path(m0, L) && Valid(m0, L)
    ensures Valid(m0, R[2..]) && Valid(m, R[2..]) && Wins(m, R[2..]) == Wins(m0, L)[|D| + 2..]
    ensures L[|D| + 2..] == R[2..]
  {
    var k, T := |D|, R[2..];
    hide Sparing;
    assert L[k + 2..] == T;
    forall i | 0 <= i < |T|
      ensures T[i] < |m0| <= |m| && m[T[i]] == m0[T[i]]
    {
      BehindOnce(m0, L, D, R, i);
      SparingAt(m0, m, L, tr, D, R, f0, f, T[i]);
    }
  }

  lemma BehindOnce(m0: Mem, L: seq<nat>, D: seq<nat>, R: seq<nat>, i: nat)
    requires Path(m0, L) && D + R == L && i + 2 < |R|
    ensures R[2..][i] < |m0| && R[2..][i] !in D && R[2..][i] != R[0] && R[2..][i] != R[1]
  {
    var k := |D|;
    assert R[2..][i] == L[k + 2 + i] && L[k] == R[0] && L[k + 1] == R[1];
    assert forall j :: 0 <= j < k ==> L[j] == D[j];
  }

  lemma SparingAt(m0: Mem, m: Mem, L: seq<nat>, tr: nat, D: seq<nat>, R: seq<nat>, f0: set<nat>, f: set<nat>, x: nat)
    requires Sparing(m0, m, L, tr, D, R, f0, f) && x < |m0| && x !in D && x != R[0] && x != tr
    ensures |m0| <= |m| && m[x] == m0[x]
  {
  }

  /** Once the node has been taken over by the one in front of it, the goal is that of an ordinary merge. */
  lemma OutsideBegins(n: Mem, L: seq<nat>, ws: seq<Window>, p: nat, D: seq<nat>, x: nat, T: seq<nat>, d: nat)
    requires |L| == |ws| && 0 < p < |L| && |D| + 1 == p && D + [x] == L[..p] && T == L[p + 1..]
    requires Path(n, D + ([x] + T)) && Valid(n, D) && Valid(n, [x] + T) && x < |n| && d < |n| && d !in D + ([x] + T)
    requires Wins(n, D) + [n[x].win] == Insert(ws[..p], ws[p]) && Wins(n, [x] + T) == [n[x].win] + ws[p + 1..]
    requires Within(n[d].win, n[x].win) && Behind(n[x].win, ws[p + 1..])
    ensures Outside(n, D, [x] + T, d, InGoal(L, ws, p))
  {
    var b, ts, front := n[x].win, ws[p + 1..], Insert(ws[..p], ws[p]);
    hide Insert, Kept, Ends, Path, Wins, Settled, Absorbed, Within, Behind, Valid;
    assert front[..|front| - 1] == Wins(n, D) && front[|front| - 1] == b;
    Settling(x, b, T, ts, n[d].win);
    assert L[p + 1..] == T;
    hide Outside;
    Assoc(D, [x], if Absorbed(b, ts) < |T| then T[Absorbed(b, ts) + 1..] else []);
    OutsideIs(n, D, [x] + T, d, InGoal(L, ws, p));
  }

  lemma OutsideIs(n: Mem, D: seq<nat>, R: seq<nat>, d: nat, g: Goal)
    requires R != [] && Path(n, D + R) && Valid(n, D) && Valid(n, R) && d < |n| && d !in D + R
    requires Wins(n, D) + Insert(Wins(n, R), n[d].win) == g.ws && D + Kept(R, Wins(n, R), n[d].win) == g.kept
    requires Ends(Wins(n, R), n[d].win) == g.ends
    ensures Outside(n, D, R, d, g)
  {
  }

  /** The node is taken over by the one in front of it. */
  lemma StepInTake(m0: Mem, m: Mem, L: seq<nat>, tr: nat, p: nat, f0: set<nat>, f: set<nat>, D: seq<nat>, R: seq<nat>, q: nat)
    requires R != [] && Going(m0, m, L, tr, p, f0, f, D, R, R[0], tr, true, q)
    requires R[0] < |m| && tr < |m| && q == 1 && Touch(m[R[0]].win, m[tr].win)
    ensures NULL <= m[R[0]].next < |m|
    ensures var a := Turned(m, R[0], tr);
            && a.freed == tr && tr !in D + Shortened(R)
            && Going(m0, a.m, L, tr, p, f0, f + {tr}, D, Shortened(R), a.src, a.des, false, q)
  {
    hide Insert, Kept, Ends, Path, Touch, TouchAt, Turned, Settled, Absorbed, Wins, Behind, InGoal, OutGoal;
    StepInFacts(m0, m, L, tr, p, f0, f, D, R, q);
    FirstTakenAt(m0, m, L, tr, p, f0, f, D, R, q);
    InTake(m, D, R, Insert(Wins(m0, L)[..p], Wins(m0, L)[p]), FirstTaken(m0, L, tr, p));
    var a := Turned(m, R[0], tr);
    assert Outside(a.m, D, [R[0]] + R[2..], |m|, GoalOf(m0, L, tr, p)) by {
      WinsBehind(m0, m, L, tr, D, R, f0, f);
      assert L[p + 1..] == R[2..] && D + [R[0]] == L[..p];
      InFront(m0, L, tr, p, f0);
      WinsOne(a.m, R[0], R[2..]);
      NotYet(|m|, D, R[0], R[2..], m);
      OutsideBegins(a.m, L, Wins(m0, L), p, D, R[0], R[2..], |m|);
    }
    hide Outside, Inside, Calm, Sparing, Given, GoalOf, FirstTaken, Framed;
    SparingTake(m0, m, a.m, L, tr, D, R, f0, f, tr);
  }

  lemma InFront(m: Mem, L: seq<nat>, tr: nat, p: nat, f: set<nat>)
    requires Given(m, L, tr, p, f) && tr in L && FirstTaken(m, L, tr, p) + 1 == p
    ensures var ws := Wins(m, L); var front := Insert(ws[..p], ws[p]); Behind(front[|front| - 1], ws[p + 1..])
  {
  }

  lemma NotYet(n: nat, D: seq<nat>, x: nat, T: seq<nat>, m: Mem)
    requires Valid(m, D) && x < |m| && Valid(m, T) && n == |m|
    ensures n !in D + ([x] + T)
  {
  }

  lemma SelfTurn(m: Mem, x: nat)
    requires x < |m| && NULL <= m[x].next < |m| && m[x].next != x
    ensures var a := Turned(m, x, x);
            && a.freed == x && |m| <= |a.m| && (forall y: nat :: y < |m| && y != x ==> a.m[y] == m[y])
            && a.m[x].next == if m[x].next == NULL then NULL else m[m[x].next].next
  {
  }

  /** A turn that frees a node leaves the list linked. */
  lemma StillLinked(m: Mem, n: Mem, D: seq<nat>, R: seq<nat>, tr: nat)
    requires R != [] && Path(m, D + R) && R[0] < |m| <= |n| && m[R[0]].next == if |R| > 1 then R[1] else NULL
    requires n[R[0]].next == if m[R[0]].next == NULL then NULL else if R[1] < |m| then m[R[1]].next else NULL
    requires forall x: nat :: x < |m| && x != R[0] ==> n[x].next == m[x].next
    ensures Path(n, D + Shortened(R)) && (D + Shortened(R))[0] == (D + R)[0]
  {
    if |R| > 1 {
      PathAt(m, D, R);
      hide Path;
      PathUnlink(m, n, D, R);
    } else {
      hide Path;
      PathSame(m, n, D + R);
    }
  }

  /** What a merge comes to: the goal, if the node was taken over where that does no harm; else a node of the list has been
      freed while it is linked, or a node that was not in the list has become its end, with all that is linked behind it. */
  ghost predicate Outcome(m0: Mem, L: seq<nat>, tr: nat, p: nat, f0: set<nat>, m: Mem, out: seq<nat>, f: set<nat>)
  {
    && Given(m0, L, tr, p, f0) && Spares(m0, m, L, tr, out, f0, f)
    && var g, u := GoalOf(m0, L, tr, p), FirstTaken(m0, L, tr, p);
       if Taken(L, tr, p, u) then tr in f && Meets(m, out, g, |m0|, f)
       else if tr in L then tr in out && tr in f && Path(m, out) && out[0] == L[0]
       else out == L && Linked(m0, m, L, tr) && f == f0 && Wins(m, L) + [m[tr].win] == g.ws
  }

  /** One turn of the loop: what it frees, and how it goes on or ends. */
  lemma Step(m0: Mem, m: Mem, L: seq<nat>, tr: nat, p: nat, f0: set<nat>, f: set<nat>, D: seq<nat>, R: seq<nat>,
             src: nat, des: nat, inside: bool, q: nat)
    requires Going(m0, m, L, tr, p, f0, f, D, R, src, des, inside, q)
    ensures src < |m| && des < |m| && NULL <= m[src].next < |m| && R != [] && R[0] == src
    ensures src !in f && des !in f && m[src].next !in f
    ensures var a := Turned(m, src, des);
            if a.freed != NULL then
              if des in D + Shortened(R) then Outcome(m0, L, tr, p, f0, a.m, D + Shortened(R), f + {des})
              else
                && Going(m0, a.m, L, tr, p, f0, f + {des}, D, Shortened(R), a.src, a.des, false, q) && a.des >= NULL
                && (|Shortened(R)| < |R| || a.des == NULL)
            else if a.des != NULL then
              && |R| > 1 && Going(m0, a.m, L, tr, p, f0, f, D + [R[0]], R[1..], a.src, a.des, inside, if inside then q - 1 else q)
              && (inside ==> q > 0) && a.des >= NULL
            else Outcome(m0, L, tr, p, f0, a.m, if des == tr then L else D + R + [des], f)
  {
    assert R != [] && src == R[0] && (inside ==> des == tr) && Given(m0, L, tr, p, f0) && (des != tr ==> des >= |m0|);
    hide Path, Wins, Insert, Kept, Ends, Touch, TouchAt, Turned, Outside, Inside, OutGoal, InGoal, GoalOf, FirstTaken;
    hide Given, Sparing, Calm, Valid, Spares, Meets, Linked;
    if inside {
      StepInFacts(m0, m, L, tr, p, f0, f, D, R, q);
      if q == 0 {
        StepInSelf(m0, m, L, tr, p, f0, f, D, R, q);
      } else if !Touch(m[src].win, m[des].win) {
        StepInMove(m0, m, L, tr, p, f0, f, D, R, q);
      } else if q == 1 {
        StepInTake(m0, m, L, tr, p, f0, f, D, R, q);
      } else {
        StepInEarly(m0, m, L, tr, p, f0, f, D, R, q);
      }
    } else {
      StepOutFacts(m0, m, L, tr, p, f0, f, D, R, src, des, q);
      if Touch(m[src].win, m[des].win) {
        StepOutTake(m0, m, L, tr, p, f0, f, D, R, src, des, q);
      } else if |R| > 1 {
        StepOutMove(m0, m, L, tr, p, f0, f, D, R, src, des, q);
      } else if des == tr {
        StepOutLast(m0, m, L, tr, p, f0, f, D, R, src, des, q);
      } else {
        StepOutEnd(m0, m, L, tr, p, f0, f, D, R, src, des, q);
      }
    }
  }

  class Memory {
    var cells: Mem
    var freed: set<nat>

    constructor (cells: Mem)
      ensures this.cells == cells && freed == {}
    {
      this.cells, freed := cells, {};
    }

    /** One turn of the loop of trigger_mingle_to_list. It touches no node that has been freed, and frees none twice. */
    method Turn(src: nat, des: nat) returns (src': nat, des': int)
      requires src < |cells| && des < |cells| && NULL <= cells[src].next < |cells|
      requires src !in freed && des !in freed && cells[src].next !in freed
      modifies this
      ensures var a := Turned(old(cells), src, des);
              && cells == a.m && src' == a.src && des' == a.des
              && freed == if a.freed == NULL then old(freed) else old(freed) + {des}
    {
      src', des' := src, des;
      if cells[src].win.start > cells[des].win.start {
        var temp := cells[des].win;
        cells := cells[des := cells[des].(win := cells[src].win)];
        cells := cells[src := cells[src].(win := temp)];
      }
      if cells[src].win.End() >= cells[des].win.start {
        cells := cells[src := cells[src].(win := Joined(cells[src].win, cells[des].win))];
        var temp := des;
        var next := cells[src].next;
        if next != NULL {
          des' := |cells|;
          cells := cells + [cells[next]];
          cells := cells[src := cells[src].(next := cells[des'].next)];
          cells := cells[des' := cells[des'].(next := NULL)];
        } else {
          des' := NULL;
        }
        freed := freed + {temp};
      } else if cells[src].next == NULL {
        cells := cells[src := cells[src].(next := des)];
        des' := NULL;
      } else {
        src' := cells[src].next;
      }
    }

    /** trigger_mingle_to_list, for a node `tr` wherever it stands. L are the nodes linked from `head`, `out` those that
        are linked when the loop ends, or when it has freed one of them. */
    method Mingle(head: nat, tr: nat, L: seq<nat>, ghost p: nat) returns (out: seq<nat>)
      requires L != [] && L[0] == head && (tr != head ==> Given(cells, L, tr, p, freed))
      modifies this
      ensures tr == head ==> out == L && cells == old(cells) && freed == old(freed)
      ensures tr != head ==> Outcome(old(cells), L, tr, p, old(freed), cells, out, freed)
    {
      hide Going, Outcome, Given, Turned;
      if head == tr {
        return L;
      }
      var src, des: int := head, tr;
      var D: seq<nat>, R: seq<nat> := [], L;
      ghost var m0, f0, inside, q := cells, freed, tr in L, p;
      Begun(cells, L, tr, p, freed);
      while des != NULL
        invariant Going(m0, cells, L, tr, p, f0, freed, D, R, src, des, inside, q) && des >= NULL
        decreases |R|, if des == NULL then 0 else 1
      {
        var was: nat := des;
        ghost var m, f := cells, freed;
        Step(m0, m, L, tr, p, f0, f, D, R, src, was, inside, q);
        src, des := Turn(src, was);
        if was in freed {
          R := Shortened(R);
          if was in D + R {
            return D + R;
          }
          inside := false;
        } else if des == NULL {
          return if was == tr then L else D + R + [was];
        } else {
          D, R := D + [R[0]], R[1..];
          q := if inside then q - 1 else q;
        }
      }
      out := D + R;
      Over(m0, cells, L, tr, p, f0, freed, D, R, src, des, inside, q);
    }
  }

  lemma Over(m0: Mem, m: Mem, L: seq<nat>, tr: nat, p: nat, f0: set<nat>, f: set<nat>, D: seq<nat>, R: seq<nat>,
             src: nat, des: int, inside: bool, q: nat)
    requires Going(m0, m, L, tr, p, f0, f, D, R, src, des, inside, q) && des == NULL
    ensures Outcome(m0, L, tr, p, f0, m, D + R, f)
  {
  }
}
