/** The same merging on the linked list of triggers, node by node. */
module JobList {
  import opened Arithmetic
  import opened Job

  /** The source's unsigned 32-bit sum. */
  function Add32(a: nat, b: nat): nat
  {
    (a + b) % UINT32
  }

  lemma Add32Exact(a: nat, b: nat)
    ensures a + b < UINT32 ==> Add32(a, b) == a + b
  {
  }

  /** A window whose end is below 2^32, so that the source's sums are exact. */
  predicate Fits(w: Window)
  {
    w.End() < UINT32
  }

  class Trigger {
    var startTime: nat
    var scheduleInterval: nat
    var next: Trigger?

    constructor (w: Window)
      ensures Win() == w && next == null
    {
      startTime, scheduleInterval, next := w.start, w.len, null;
    }

    function Win(): Window
      reads this`startTime, this`scheduleInterval
    {
      Window(startTime, scheduleInterval)
    }
  }

  /** The nodes of a list, in order. */
  ghost predicate Linked(nodes: seq<Trigger>)
    reads nodes`next
  {
    && nodes != []
    && (forall i, j :: 0 <= i < j < |nodes| ==> nodes[i] != nodes[j])
    && (forall i :: 0 <= i < |nodes| - 1 ==> nodes[i].next == nodes[i + 1])
    && nodes[|nodes| - 1].next == null
  }

  ghost function Windows(nodes: seq<Trigger>): (ws: seq<Window>)
    reads nodes`startTime, nodes`scheduleInterval
    ensures |ws| == |nodes| && forall i :: 0 <= i < |nodes| ==> ws[i] == nodes[i].Win()
  {
    WindowsFrom(nodes)
  }

  ghost function WindowsFrom(nodes: seq<Trigger>): (ws: seq<Window>)
    reads nodes`startTime, nodes`scheduleInterval
    ensures |ws| == |nodes| && forall i :: 0 <= i < |nodes| ==> ws[i] == nodes[i].Win()
  {
    if nodes == [] then [] else [nodes[0].Win()] + WindowsFrom(nodes[1..])
  }

  ghost predicate AllFit(nodes: seq<Trigger>)
    reads nodes`startTime, nodes`scheduleInterval
  {
    forall n <- nodes :: Fits(n.Win())
  }

  // ---- one turn of the loop, on values

  /** Putting the earlier of head and pending window at the head changes nothing. */
  lemma SwapSame(ws: seq<Window>, w: Window)
    requires ws != []
    ensures Insert(ws, w) == Insert([Earlier(ws[0], w)] + ws[1..], Later(ws[0], w))
  {
    var a, b := Earlier(ws[0], w), Later(ws[0], w);
    var vs := [a] + ws[1..];
    assert vs[1..] == ws[1..];
    if |ws| > 1 {
      assert vs[2..] == ws[2..] && vs[1] == ws[1];
    }
  }

  /** The state of the loop: nodes before the cursor, nodes from the cursor on, and the pending node. */
  ghost predicate Turning(done: seq<Trigger>, rest: seq<Trigger>, des: Trigger, goal: seq<Window>)
    reads done, rest, des
  {
    && rest != [] && Linked(done + rest) && AllFit(done + rest)
    && des !in done + rest && des.next == null && Fits(des.Win())
    && Windows(done) + Insert(Windows(rest), des.Win()) == goal
  }

  lemma Apart(done: seq<Trigger>, rest: seq<Trigger>, des: Trigger)
    requires rest != [] && Linked(done + rest) && des !in done + rest
    ensures rest[0] !in done && rest[0] !in rest[1..] && des !in done && des !in rest
  {
    var all := done + rest;
    assert forall i :: 0 <= i < |done| ==> done[i] == all[i];
    assert forall i :: 0 <= i < |rest| ==> rest[i] == all[|done| + i];
  }

  /** The two nodes exchange their windows if the cursor's starts later. */
  method EarlierFirst(src: Trigger, des: Trigger, ghost done: seq<Trigger>, ghost rest: seq<Trigger>, ghost goal: seq<Window>)
    requires Turning(done, rest, des, goal) && src == rest[0]
    modifies src`startTime, src`scheduleInterval, des`startTime, des`scheduleInterval
    ensures Turning(done, rest, des, goal) && Linked(done + rest)
    ensures src.startTime <= des.startTime && Fits(src.Win()) && Fits(des.Win())
  {
    hide Insert, Linked, Windows;
    SwapSame(Windows(rest), des.Win());
    Apart(done, rest, des);
    if src.startTime > des.startTime {
      src.startTime, des.startTime := des.startTime, src.startTime;
      src.scheduleInterval, des.scheduleInterval := des.scheduleInterval, src.scheduleInterval;
    }
    assert Windows(done) == old(Windows(done));
    assert Windows(rest) == [Earlier(old(src.Win()), old(des.Win()))] + old(Windows(rest))[1..];
  }

  /** The pending window is gone; the node behind the cursor is the next to be worked in. */
  ghost predicate Absorbed(done: seq<Trigger>, rest: seq<Trigger>, goal: seq<Window>)
    reads done, rest
  {
    && rest != [] && Linked(done + rest) && AllFit(done + rest)
    && Windows(done) + (if |rest| == 1 then Windows(rest)
                        else Insert([rest[0].Win()] + Windows(rest)[2..], rest[1].Win())) == goal
  }

  lemma Overlapped(before: seq<Window>, w: Window, after: seq<Window>)
    requires before != [] && before[0].start <= w.start <= before[0].End()
    requires after == before[0 := Joined(before[0], w)]
    ensures Insert(before, w) == if |after| == 1 then after else Insert([after[0]] + after[2..], after[1])
  {
    InsertOverlap(before, w);
    hide Insert;
    if |after| == 1 {
      assert after == [Joined(before[0], w)];
    } else {
      assert after[2..] == before[2..];
    }
  }

  lemma SplitFit(done: seq<Trigger>, rest: seq<Trigger>)
    requires rest != []
    ensures AllFit(done + rest) <==> AllFit(done) && Fits(rest[0].Win()) && AllFit(rest[1..])
  {
    assert done + rest == done + ([rest[0]] + rest[1..]);
  }

  /** The cursor's node takes over the pending window. */
  method Absorb(src: Trigger, des: Trigger, ghost done: seq<Trigger>, ghost rest: seq<Trigger>, ghost goal: seq<Window>)
    requires Turning(done, rest, des, goal) && src == rest[0]
    requires src.startTime <= des.startTime <= src.Win().End()
    modifies src`scheduleInterval
    ensures Absorbed(done, rest, goal)
  {
    hide Insert, Linked, AllFit, Windows, Add32;
    Add32Exact(src.startTime, src.scheduleInterval);
    Add32Exact(des.startTime, des.scheduleInterval);
    Apart(done, rest, des);
    SplitFit(done, rest);
    ghost var before := Windows(rest);
    if Add32(src.startTime, src.scheduleInterval) < Add32(des.startTime, des.scheduleInterval) {
      src.scheduleInterval := des.startTime + des.scheduleInterval - src.startTime;
    }
    assert Windows(done) == old(Windows(done));
    assert Windows(rest) == before[0 := Joined(old(src.Win()), des.Win())];
    Overlapped(before, des.Win(), Windows(rest));
    SplitFit(done, rest);
  }

  /** The node behind the cursor is copied out of the list. */
  method TakeNext(src: Trigger, ghost done: seq<Trigger>, ghost rest: seq<Trigger>, ghost goal: seq<Window>)
    returns (pending: Trigger, ghost left: seq<Trigger>)
    requires Absorbed(done, rest, goal) && src == rest[0] && src.next != null
    modifies src`next
    ensures |rest| > 1 && left == [src] + rest[2..]
    ensures fresh(pending) && Turning(done, left, pending, goal)
  {
    hide Insert, Windows;
    LastNode(done, rest);
    NoRepeats(done, rest);
    ghost var ws := Windows(rest);
    pending := CopyOut(src);
    left := [src] + rest[2..];
    Unlinked(done, rest, left);
    assert Windows(left) == [src.Win()] + ws[2..];
    assert Windows(done) == old(Windows(done));
  }

  /** A copy of the next node, which goes out of the list. */
  method CopyOut(src: Trigger) returns (pending: Trigger)
    requires src.next != null && src.next != src
    modifies src`next
    ensures fresh(pending) && pending.next == null && pending.Win() == old(src.next.Win()) && src.next == old(src.next.next)
  {
    pending := new Trigger(src.next.Win());
    pending.next := src.next.next;
    src.next := pending.next;
    pending.next := null;
  }

  lemma NoRepeats(done: seq<Trigger>, rest: seq<Trigger>)
    requires rest != [] && Linked(done + rest)
    ensures rest[0] !in done && rest[0] !in rest[1..]
  {
    var all := done + rest;
    assert forall i :: 0 <= i < |done| ==> done[i] == all[i];
    assert forall i :: 0 <= i < |rest| ==> rest[i] == all[|done| + i];
  }

  /** A list without the node that its cursor now skips. */
  lemma Unlinked(done: seq<Trigger>, rest: seq<Trigger>, left: seq<Trigger>)
    requires |rest| > 1 && left == [rest[0]] + rest[2..]
    requires var all := done + rest;
             && (forall i, j :: 0 <= i < j < |all| ==> all[i] != all[j])
             && (forall i :: 0 <= i < |all| - 1 && i != |done| ==> all[i].next == all[i + 1])
             && (|rest| > 2 ==> all[|all| - 1].next == null)
    requires rest[0].next == if |rest| > 2 then rest[2] else null
    ensures Linked(done + left)
  {
    var all, k := done + rest, |done|;
    var out := done + left;
    assert forall i :: 0 <= i <= k ==> out[i] == all[i];
    assert forall i :: k < i < |out| ==> out[i] == all[i + 1];
  }

  lemma InsertOverlap(ws: seq<Window>, w: Window)
    requires ws != [] && ws[0].start <= w.start <= ws[0].End()
    ensures Insert(ws, w) == if |ws| == 1 then [Joined(ws[0], w)] else Insert([Joined(ws[0], w)] + ws[2..], ws[1])
  {
  }

  lemma InsertApart(ws: seq<Window>, w: Window)
    requires ws != [] && ws[0].End() < w.start
    ensures Insert(ws, w) == [ws[0]] + if |ws| == 1 then [w] else Insert(ws[1..], w)
  {
  }

  /** Where the cursor's node points. */
  lemma LastNode(done: seq<Trigger>, rest: seq<Trigger>)
    requires rest != [] && Linked(done + rest)
    ensures rest[0].next == if |rest| > 1 then rest[1] else null
    ensures |rest| > 1 ==> rest[1].next == if |rest| > 2 then rest[2] else null
  {
    var all, k := done + rest, |done|;
    assert all[k] == rest[0];
    if |rest| > 1 {
      assert all[k + 1] == rest[1];
      if |rest| > 2 {
        assert all[k + 2] == rest[2];
      }
    }
  }

  /** What is left to do after an absorption: nothing if the cursor's node is the last. */
  lemma AfterAbsorb(done: seq<Trigger>, rest: seq<Trigger>, goal: seq<Window>)
    requires Absorbed(done, rest, goal)
    ensures rest[0].next == if |rest| > 1 then rest[1] else null
    ensures |rest| == 1 ==> Linked(done + rest) && AllFit(done + rest) && Windows(done + rest) == goal
  {
    LastNode(done, rest);
    WindowsJoin(done, rest);
  }

  lemma WindowsJoin(done: seq<Trigger>, rest: seq<Trigger>)
    ensures Windows(done + rest) == Windows(done) + Windows(rest)
  {
  }

  lemma WindowsTail(done: seq<Trigger>, rest: seq<Trigger>)
    requires rest != []
    ensures Windows(rest)[0] == rest[0].Win() && Windows(rest)[1..] == Windows(rest[1..])
    ensures Windows(done + [rest[0]]) == Windows(done) + [rest[0].Win()]
  {
  }

  /** The cursor moves on past a window that the pending one does not touch. */
  lemma MoveOn(done: seq<Trigger>, rest: seq<Trigger>, des: Trigger, goal: seq<Window>)
    requires Turning(done, rest, des, goal) && |rest| > 1
    requires rest[0].Win().End() < des.startTime
    ensures Turning(done + [rest[0]], rest[1..], des, goal)
    ensures rest[0].next == rest[1]
  {
    hide Insert, Linked, AllFit, Windows;
    LastNode(done, rest);
    InsertApart(Windows(rest), des.Win());
    WindowsTail(done, rest);
    assert done + [rest[0]] + rest[1..] == done + rest;
    var a, b, c := Windows(done), [rest[0].Win()], Insert(Windows(rest[1..]), des.Win());
    assert a + (b + c) == (a + b) + c;
    assert des !in done + rest && des !in done + [rest[0]] + rest[1..];
  }

  /** The pending node becomes the last one. */
  method Append(src: Trigger, des: Trigger, ghost done: seq<Trigger>, ghost rest: seq<Trigger>, ghost goal: seq<Window>)
    requires Turning(done, rest, des, goal) && rest == [src]
    requires src.Win().End() < des.startTime
    modifies src`next
    ensures Linked(done + [src, des]) && AllFit(done + [src, des]) && Windows(done + [src, des]) == goal
  {
    hide Insert, Windows;
    Apart(done, rest, des);
    InsertApart(Windows(rest), des.Win());
    assert Windows(rest) == [src.Win()];
    src.next := des;
    ghost var all, out := done + rest, done + [src, des];
    assert forall i :: 0 <= i < |all| ==> out[i] == all[i];
    WindowsJoin(done, [src, des]);
    assert Windows([src, des]) == [src.Win(), des.Win()];
    assert Windows(done) == old(Windows(done));
  }

  /** What the loop keeps: `src` is the cursor's node, and a pending node is still to be worked in. */
  ghost predicate Loop(head: Trigger, src: Trigger, des: Trigger?, done: seq<Trigger>, rest: seq<Trigger>, goal: seq<Window>)
    reads done, rest, if des == null then {} else {des}
  {
    && rest != [] && src == rest[0] && (done + rest)[0] == head
    && if des != null then Turning(done, rest, des, goal)
       else Linked(done + rest) && AllFit(done + rest) && Windows(done + rest) == goal
  }

  /** One turn of the loop. */
  method Turn(head: Trigger, src: Trigger, des: Trigger, ghost done: seq<Trigger>, ghost rest: seq<Trigger>, ghost goal: seq<Window>, ghost own: set<object>)
    returns (src': Trigger, des': Trigger?, ghost done': seq<Trigger>, ghost rest': seq<Trigger>)
    requires Loop(head, src, des, done, rest, goal)
    requires des in own && forall n <- rest :: n in own
    modifies own
    ensures Loop(head, src', des', done', rest', goal)
    ensures forall n <- done' + rest' :: n in done + rest || n == des || fresh(n)
    ensures des' == null || (des' == des && |rest'| < |rest|) || (fresh(des') && |rest'| < |rest|)
  {
    src', des', done', rest' := src, des, done, rest;
    hide Turning, Absorbed, Linked, AllFit, Windows, Insert;
    EarlierFirst(src, des, done, rest, goal);
    if Add32(src.startTime, src.scheduleInterval) >= des.startTime {
      Absorb(src, des, done, rest, goal);
      AfterAbsorb(done, rest, goal);
      if src.next != null {
        des', rest' := TakeNext(src, done, rest, goal);
      } else {
        des' := null;
      }
    } else {
      LastNode(done, rest);
      if src.next == null {
        Append(src, des, done, rest, goal);
        des', rest' := null, [src, des];
      } else {
        MoveOn(done, rest, des, goal);
        src' := src.next;
        done', rest' := done + [rest[0]], rest[1..];
        assert done' + rest' == done + rest;
      }
    }
  }

  lemma Begin(nodes: seq<Trigger>, tr: Trigger)
    requires Linked(nodes) && AllFit(nodes)
    requires tr !in nodes && tr.next == null && Fits(tr.Win())
    ensures Turning([], nodes, tr, Insert(Windows(nodes), tr.Win()))
  {
    hide Insert;
    assert [] + nodes == nodes;
  }

  /** trigger_mingle_to_list: work the window of `tr` into the list that starts at `head`. */
  method MingleToList(head: Trigger, tr: Trigger, ghost nodes: seq<Trigger>, ghost own: set<object>)
    returns (ghost out: seq<Trigger>)
    requires nodes != [] && nodes[0] == head && Linked(nodes) && AllFit(nodes)
    requires tr == head || (tr !in nodes && tr.next == null && Fits(tr.Win()))
    requires tr in own && forall n <- nodes :: n in own
    modifies own
    ensures Linked(out) && AllFit(out) && out[0] == head
    ensures tr == head ==> out == nodes && Windows(out) == old(Windows(nodes))
    ensures tr != head ==> Windows(out) == Insert(old(Windows(nodes)), old(tr.Win()))
    ensures forall n <- out :: n in own || fresh(n)
  {
    hide Insert, Turning, Linked, AllFit, Windows;
    if head == tr {
      return nodes;
    }
    var src: Trigger, des: Trigger? := head, tr;
    ghost var goal := Insert(Windows(nodes), tr.Win());
    ghost var done: seq<Trigger>, rest: seq<Trigger> := [], nodes;
    Begin(nodes, tr);
    while des != null
      invariant Loop(head, src, des, done, rest, goal)
      invariant des == null || des in own || fresh(des)
      invariant forall n <- done + rest :: n in own || fresh(n)
      decreases if des == null then 0 else |rest|
    {
      assert forall n <- rest :: n in done + rest;
      ghost var turning: set<object> := (set n | n in rest) + {des};
      assert forall o <- turning :: o in own || fresh(o);
      src, des, done, rest := Turn(head, src, des, done, rest, goal, turning);
    }
    out := done + rest;
  }

  // ---- the trigger loop of a job

  predicate EntriesFit(es: seq<Entry>)
  {
    forall e <- es :: Fits(e.window)
  }

  lemma UsedMore(es: seq<Entry>, e: Entry)
    requires es != []
    ensures Used(es + [e]) == if e.needWork then Used(es) + [e.window] else Used(es)
  {
    assert (es + [e])[1..] == es[1..] + [e];
    WantedMore(es[1..], e);
  }

  lemma {:induction false} WantedMore(es: seq<Entry>, e: Entry)
    ensures Wanted(es + [e]) == if e.needWork then Wanted(es) + [e.window] else Wanted(es)
  {
    if es == [] {
      assert (es + [e])[1..] == [];
    } else {
      assert (es + [e])[1..] == es[1..] + [e];
      WantedMore(es[1..], e);
    }
  }

  lemma FoldMore(ws: seq<Window>, w: Window)
    requires ws != []
    ensures Fold(ws + [w]) == Insert(Fold(ws), w)
  {
    assert (ws + [w])[..|ws|] == ws;
  }

  lemma FoldFirst(es: seq<Entry>)
    requires es != []
    ensures Fold(Used(es[..1])) == [es[0].window]
  {
    assert es[..1][1..] == [];
  }

  lemma Single(tr: Trigger)
    requires tr.next == null && Fits(tr.Win())
    ensures Linked([tr]) && AllFit([tr]) && Windows([tr]) == [tr.Win()]
  {
  }

  lemma FoldStep(es: seq<Entry>, i: nat)
    requires 0 < i < |es|
    ensures Used(es[..i]) != [] && Used(es[..i + 1]) != []
    ensures Fold(Used(es[..i + 1])) ==
            if es[i].needWork then Insert(Fold(Used(es[..i])), es[i].window) else Fold(Used(es[..i]))
  {
    assert Used(es[..i]) != [];
    hide Used, Fold, Insert;
    UsedMore(es[..i], es[i]);
    FoldMore(Used(es[..i]), es[i].window);
    assert es[..i + 1] == es[..i] + [es[i]];
  }

  /** One later trigger of a job. */
  method AddEntry(head: Trigger, e: Entry, ghost nodes: seq<Trigger>, ghost own: set<object>)
    returns (ghost out: seq<Trigger>, ghost more: set<object>)
    requires nodes != [] && nodes[0] == head && Linked(nodes) && AllFit(nodes) && Fits(e.window)
    requires forall n <- nodes :: n in own
    modifies own
    ensures Linked(out) && AllFit(out) && out[0] == head
    ensures Windows(out) == if e.needWork then Insert(old(Windows(nodes)), e.window) else old(Windows(nodes))
    ensures fresh(more - own) && forall n <- out :: n in more
  {
    hide Linked, AllFit, Windows, Insert;
    var tr := new Trigger(e.window);
    out, more := nodes, own;
    if e.needWork {
      out := MingleToList(head, tr, nodes, own + {tr});
      more := set n | n in out;
    }
  }

  /** The loop over a job's triggers: the first becomes the head, each later one that is wanted is worked in. */
  method FromEntries(es: seq<Entry>) returns (head: Trigger?, ghost nodes: seq<Trigger>)
    requires EntriesFit(es)
    ensures head == null <==> es == []
    ensures es != [] ==> Linked(nodes) && AllFit(nodes) && nodes[0] == head
    ensures es != [] ==> Windows(nodes) == Fold(Used(es))
    ensures forall n <- nodes :: fresh(n)
  {
    head, nodes := null, [];
    if es == [] {
      return;
    }
    hide Linked, AllFit, Windows, Insert, Fold, Used;
    var first := new Trigger(es[0].window);
    Single(first);
    nodes := MingleToList(first, first, [first], {first});
    FoldFirst(es);
    ghost var own: set<object> := set n | n in nodes;
    var i := 1;
    while i < |es|
      invariant 1 <= i <= |es|
      invariant Linked(nodes) && AllFit(nodes) && nodes != [] && nodes[0] == first
      invariant fresh(own) && forall n <- nodes :: n in own
      invariant Windows(nodes) == Fold(Used(es[..i]))
    {
      FoldStep(es, i);
      nodes, own := AddEntry(first, es[i], nodes, own);
      i := i + 1;
    }
    assert es[..i] == es;
    head := first;
  }

  // ---- copying the list to a channel

  /** `out` repeats the first nodes of `nodes`, and its last node still points where the original does. */
  ghost predicate Copied(nodes: seq<Trigger>, out: seq<Trigger>)
    reads nodes, out
  {
    && 0 < |out| <= |nodes|
    && (forall i, j :: 0 <= i < j < |out| ==> out[i] != out[j])
    && (forall i :: 0 <= i < |out| - 1 ==> out[i].next == out[i + 1])
    && out[|out| - 1].next == (if |out| < |nodes| then nodes[|out|] else null)
    && (forall i :: 0 <= i < |out| ==> out[i].Win() == nodes[i].Win())
  }

  lemma CopiedAll(nodes: seq<Trigger>, out: seq<Trigger>)
    requires Linked(nodes) && AllFit(nodes) && Copied(nodes, out) && |out| == |nodes|
    ensures Linked(out) && AllFit(out) && Windows(out) == Windows(nodes)
  {
    hide Windows;
    assert Windows(out) == Windows(nodes);
  }

  method CopyOne(last: Trigger, from: Trigger, ghost nodes: seq<Trigger>, ghost out: seq<Trigger>)
    returns (copy: Trigger)
    requires Linked(nodes) && Copied(nodes, out) && |out| < |nodes| && last == out[|out| - 1] && last !in nodes
    requires from == nodes[|out|]
    modifies last`next
    ensures fresh(copy) && Copied(nodes, out + [copy])
  {
    copy := new Trigger(from.Win());
    copy.next := from.next;
    last.next := copy;
  }

  /** copy_trigger: a list of fresh nodes with the same windows. */
  method Copy(src: Trigger, ghost nodes: seq<Trigger>) returns (dest: Trigger, ghost out: seq<Trigger>)
    requires nodes != [] && nodes[0] == src && Linked(nodes) && AllFit(nodes)
    ensures Linked(out) && AllFit(out) && out[0] == dest && Windows(out) == Windows(nodes)
    ensures forall n <- out :: fresh(n)
  {
    hide Windows, AllFit;
    dest := new Trigger(src.Win());
    dest.next := src.next;
    var from, last := src, dest;
    out := [dest];
    while from.next != null
      invariant Copied(nodes, out) && out[0] == dest
      invariant from == nodes[|out| - 1] && last == out[|out| - 1]
      invariant fresh(last) && forall n <- out :: fresh(n)
      decreases |nodes| - |out|
    {
      from := from.next;
      last := CopyOne(last, from, nodes, out);
      out := out + [last];
    }
    CopiedAll(nodes, out);
  }
}
