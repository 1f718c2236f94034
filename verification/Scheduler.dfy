/** The timer-driven run over a channel's merged windows. */
module Scheduler {
  import opened Arithmetic
  import opened Job
  import opened JobList

  /** The channel's timer: not running, or due after so many milliseconds. */
  datatype Timer = Idle | Armed(delay: nat)

  /** What one call does: the windows left, the recordings begun, the timer, and the value returned. */
  datatype Dealt = Dealt(left: seq<Window>, begun: seq<Window>, timer: Timer, code: int)

  /** The milliseconds to `start`, as the source computes them in 32 bits. */
  function Delay32(start: nat, now: nat): nat
  {
    ((start - now) % UINT32 * 1000) % UINT32
  }

  /** The largest number of seconds whose milliseconds fit in 32 bits. */
  const MAX_SECONDS := 4294967

  lemma DelayExactIff(start: nat, now: nat)
    requires now <= start < UINT32
    ensures Delay32(start, now) == (start - now) * 1000 <==> start - now <= MAX_SECONDS
  {
  }

  predicate InRange(ws: seq<Window>)
  {
    forall w <- ws :: w.start <= MAX_SECONDS
  }

  /** deal_this_trigger at second `now` of the day. */
  function Deal(ws: seq<Window>, now: nat, timer: Timer): Dealt
  {
    if ws == [] then Dealt([], [], Idle, 0)
    else if now < ws[0].start then Dealt(ws, [], Armed(Delay32(ws[0].start, now)), 1)
    else if now < ws[0].End() then
      Dealt(ws[1..], [Window(now, ws[0].End() - now)],
            if |ws| > 1 then Armed(Delay32(ws[1].start, now)) else timer, 1)
    else Deal(ws[1..], now, timer)
  }

  // ---- one call

  /** A call drops only windows that are over or recorded, and begins at most one recording, from now to the end of a
      window that holds now. */
  lemma {:induction false} DealMeans(ws: seq<Window>, now: nat, timer: Timer)
    requires Separated(ws)
    ensures var d := Deal(ws, now, timer);
            && Separated(d.left)
            && (forall t: int :: Covers(d.begun, t) <==> t >= now && Covers(ws, t) && !Covers(d.left, t))
            && (d.begun != [] <==> Covers(ws, now)) && |d.begun| <= 1
            && (d.begun != [] ==> d.begun[0].start == now && d.begun[0].len > 0)
            && (d.begun != [] && d.left != [] ==> d.begun[0].End() < d.left[0].start)
            && (forall t: int :: Covers(d.left, t) ==> t > now && Covers(ws, t))
    decreases |ws|
  {
    if ws != [] {
      var d := Deal(ws, now, timer);
      if now < ws[0].start {
        forall t: int
          ensures Covers(ws, t) ==> t > now
        {
          CoverBounds(ws, t);
        }
      } else if now < ws[0].End() {
        forall t: int
          ensures Covers(ws[1..], t) ==> t > ws[0].End()
          ensures Covers(d.begun, t) <==> now <= t < ws[0].End()
        {
          CoverBounds(ws, t);
          assert d.begun[1..] == [];
        }
      } else {
        DealMeans(ws[1..], now, timer);
      }
    }
  }

  /** Every delay is positive and exact, and the timer runs whenever windows are left. */
  lemma {:induction false} DealArms(ws: seq<Window>, now: nat, timer: Timer)
    requires Separated(ws) && InRange(ws)
    ensures var d := Deal(ws, now, timer);
            && InRange(d.left)
            && (d.left != [] ==> d.left[0].start > now && d.timer == Armed((d.left[0].start - now) * 1000))
            && (d.left == [] ==> d.timer == timer || d.timer == Idle)
            && (d.code == 0 <==> d.left == d.begun == [])
    decreases |ws|
  {
    if ws != [] {
      if now < ws[0].start {
        DelayExactIff(ws[0].start, now);
      } else if now < ws[0].End() {
        if |ws| > 1 {
          assert ws[1] in ws;
          DelayExactIff(ws[1].start, now);
        }
      } else {
        DealArms(ws[1..], now, timer);
      }
    }
  }

  // ---- a run, whenever its calls come

  /** The recordings begun by calls at the given times. */
  function Begun(ws: seq<Window>, nows: seq<nat>): seq<Window>
    decreases |nows|
  {
    if nows == [] then []
    else Deal(ws, nows[0], Idle).begun + Begun(Deal(ws, nows[0], Idle).left, nows[1..])
  }

  /** No second is recorded twice. */
  ghost predicate Disjoint(ws: seq<Window>)
  {
    forall i, j, t: int :: 0 <= i < j < |ws| && ws[i].Holds(t) ==> !ws[j].Holds(t)
  }

  lemma {:induction false} CoversAt(ws: seq<Window>, i: nat, t: int)
    requires i < |ws| && ws[i].Holds(t)
    ensures Covers(ws, t)
  {
    if i > 0 {
      CoversAt(ws[1..], i - 1, t);
    }
  }

  lemma {:induction false} CoversSum(a: seq<Window>, b: seq<Window>, t: int)
    ensures Covers(a + b, t) <==> Covers(a, t) || Covers(b, t)
  {
    if a == [] {
      assert a + b == b;
    } else {
      assert (a + b)[1..] == a[1..] + b;
      CoversSum(a[1..], b, t);
    }
  }

  /** Calls at any times whatever record disjoint stretches inside the list's cover. */
  lemma {:induction false} BegunInside(ws: seq<Window>, nows: seq<nat>)
    requires Separated(ws)
    ensures Disjoint(Begun(ws, nows))
    ensures forall t: int :: Covers(Begun(ws, nows), t) ==> Covers(ws, t)
    decreases |nows|
  {
    if nows != [] {
      var d := Deal(ws, nows[0], Idle);
      DealMeans(ws, nows[0], Idle);
      BegunInside(d.left, nows[1..]);
      var later := Begun(d.left, nows[1..]);
      forall t: int
        ensures Covers(d.begun + later, t) <==> Covers(d.begun, t) || Covers(later, t)
      {
        CoversSum(d.begun, later, t);
      }
      forall i, j, t: int | 0 <= i < j < |d.begun + later| && (d.begun + later)[i].Holds(t)
        ensures !(d.begun + later)[j].Holds(t)
      {
        if i < |d.begun| && (d.begun + later)[j].Holds(t) {
          CoversAt(d.begun, i, t);
          CoversAt(later, j - |d.begun|, t);
        }
      }
    }
  }

  // ---- a run whose timer is punctual

  /** The recordings of a run that is started at `now` and called again exactly when its timer is due. */
  function Punctual(ws: seq<Window>, now: nat): seq<Window>
    requires Separated(ws) && InRange(ws)
    decreases |ws|, if ws != [] && now < ws[0].start then 1 else 0
  {
    DealShorter(ws, now);
    DealArms(ws, now, Idle);
    DealMeans(ws, now, Idle);
    var d := Deal(ws, now, Idle);
    if d.left == [] then d.begun else d.begun + Punctual(d.left, now + d.timer.delay / 1000)
  }

  lemma {:induction false} DealShorter(ws: seq<Window>, now: nat)
    ensures |Deal(ws, now, Idle).left| <= |ws|
    ensures |Deal(ws, now, Idle).left| == |ws| && ws != [] ==> now < ws[0].start && Deal(ws, now, Idle).left == ws
    decreases |ws|
  {
    if ws != [] && now >= ws[0].End() {
      DealShorter(ws[1..], now);
    }
  }

  /** One turn of a punctual run: the next call comes at the start of the next window. */
  lemma PunctualTurn(ws: seq<Window>, now: nat)
    requires Separated(ws) && InRange(ws)
    ensures var d := Deal(ws, now, Idle);
            && Separated(d.left) && InRange(d.left)
            && (d.left == [] ==> Punctual(ws, now) == d.begun)
            && (d.left != [] ==> d.left[0].start > now && Punctual(ws, now) == d.begun + Punctual(d.left, d.left[0].start))
            && (|d.left| < |ws| || (d.left == ws && (ws != [] ==> now < ws[0].start)))
  {
    DealShorter(ws, now);
    DealArms(ws, now, Idle);
    DealMeans(ws, now, Idle);
  }

  lemma SeparatedJoin(a: seq<Window>, b: seq<Window>)
    requires |a| <= 1 && Separated(b) && (a != [] && b != [] ==> a[0].End() < b[0].start)
    ensures Separated(a + b)
  {
    if a == [] {
      assert a + b == b;
    } else {
      assert (a + b)[1..] == b;
    }
  }

  /** A punctual run records exactly the covered seconds from its start on. */
  lemma {:induction false} PunctualCovers(ws: seq<Window>, now: nat)
    requires Separated(ws) && InRange(ws)
    ensures forall t: int :: Covers(Punctual(ws, now), t) <==> t >= now && Covers(ws, t)
    ensures Separated(Punctual(ws, now))
    ensures Punctual(ws, now) != [] ==> Punctual(ws, now)[0].start >= now
    decreases |ws|, if ws != [] && now < ws[0].start then 1 else 0
  {
    hide Separated, Deal, Punctual, Covers;
    var d := Deal(ws, now, Idle);
    PunctualTurn(ws, now);
    DealMeans(ws, now, Idle);
    if d.left != [] {
      var next := d.left[0].start;
      PunctualCovers(d.left, next);
      var later := Punctual(d.left, next);
      forall t: int
        ensures Covers(d.begun + later, t) <==> t >= now && Covers(ws, t)
      {
        CoversSum(d.begun, later, t);
        CoverBounds(d.left, t);
      }
      SeparatedJoin(d.begun, later);
    } else {
      NothingCovered();
      SeparatedJoin(d.begun, []);
      assert d.begun + [] == d.begun;
    }
  }

  lemma NothingCovered()
    ensures Separated([]) && forall t: int :: !Covers([], t)
  {
  }

  /** A punctual run that starts no later than the first window records every window whole. */
  lemma PunctualWhole(ws: seq<Window>, now: nat)
    requires Separated(ws) && InRange(ws) && Positive(ws)
    requires ws != [] ==> now <= ws[0].start
    ensures Punctual(ws, now) == ws
  {
    PunctualCovers(ws, now);
    PunctualPositive(ws, now);
    forall t: int
      ensures Covers(Punctual(ws, now), t) <==> Covers(ws, t)
    {
      if ws != [] {
        CoverBounds(ws, t);
      }
    }
    Canonical(Punctual(ws, now), ws);
  }

  lemma {:induction false} PunctualPositive(ws: seq<Window>, now: nat)
    requires Separated(ws) && InRange(ws)
    ensures Positive(Punctual(ws, now))
    decreases |ws|, if ws != [] && now < ws[0].start then 1 else 0
  {
    hide Separated, Punctual;
    PunctualTurn(ws, now);
    DealMeans(ws, now, Idle);
    var d := Deal(ws, now, Idle);
    if d.left != [] {
      PunctualPositive(d.left, d.left[0].start);
    }
  }

  // ---- a whole job

  lemma {:induction false} InsertInRange(ws: seq<Window>, w: Window)
    requires ws != [] && InRange(ws) && w.start <= MAX_SECONDS
    ensures InRange(Insert(ws, w))
    decreases |ws|
  {
    if |ws| > 1 {
      var a, b := Earlier(ws[0], w), Later(ws[0], w);
      if a.End() >= b.start {
        InsertInRange([Joined(a, b)] + ws[2..], ws[1]);
      } else {
        InsertInRange(ws[1..], b);
      }
    }
  }

  lemma {:induction false} FoldInRange(ws: seq<Window>)
    requires ws != [] && InRange(ws)
    ensures InRange(Fold(ws))
  {
    if |ws| > 1 {
      FoldInRange(ws[..|ws| - 1]);
      InsertInRange(Fold(ws[..|ws| - 1]), ws[|ws| - 1]);
    }
  }

  /** From the triggers of a job to its recordings: started at `now` with a punctual timer, the channel records the
      seconds from `now` on that the first trigger's window holds, or that of a trigger whose calendar asks for work, each
      once. */
  lemma JobRecords(es: seq<Entry>, now: nat)
    requires es != [] && forall i :: 0 <= i < |es| && (i == 0 || es[i].needWork) ==> es[i].window.start <= 4294967
    ensures var ws := Fold(Used(es));
            && Separated(ws) && InRange(ws) && Disjoint(Punctual(ws, now))
            && forall t: int :: Covers(Punctual(ws, now), t) <==>
                 && t >= now
                 && exists i :: && 0 <= i < |es| && (i == 0 || es[i].needWork)
                                && es[i].window.start <= t < es[i].window.start + es[i].window.len
  {
    var ws := Fold(Used(es));
    forall w | w in Used(es)
      ensures w.start <= MAX_SECONDS
    {
      UsedMember(es, w);
    }
    FoldMeans(Used(es));
    FoldInRange(Used(es));
    PunctualCovers(ws, now);
    SeparatedDisjoint(Punctual(ws, now));
    forall t: int
      ensures Covers(Punctual(ws, now), t) <==>
                && t >= now
                && exists i :: && 0 <= i < |es| && (i == 0 || es[i].needWork)
                               && es[i].window.start <= t < es[i].window.start + es[i].window.len
    {
      EntriesHold(es, t);
    }
  }

  lemma {:induction false} SeparatedDisjoint(ws: seq<Window>)
    requires Separated(ws)
    ensures Disjoint(ws)
  {
    if |ws| > 1 {
      SeparatedDisjoint(ws[1..]);
      forall i, j, t: int | 0 <= i < j < |ws| && ws[i].Holds(t)
        ensures !ws[j].Holds(t)
      {
        if i == 0 && ws[j].Holds(t) {
          CoversAt(ws[1..], j - 1, t);
          CoverBounds(ws, t);
        } else if i > 0 {
          assert ws[1..][i - 1] == ws[i] && ws[1..][j - 1] == ws[j];
        }
      }
    }
  }

  // ---- the channel

  class Channel {
    var trigger: Trigger?
    var timer: Timer
    // The recordings begun so far.
    var begun: seq<Window>
    ghost var nodes: seq<Trigger>

    ghost predicate Valid()
      reads this, nodes
    {
      if trigger == null then nodes == []
      else nodes != [] && nodes[0] == trigger && Linked(nodes) && AllFit(nodes)
    }

    /** The channel gets its own copy of the job's list. */
    constructor (job: Trigger, ghost list: seq<Trigger>)
      requires list != [] && list[0] == job && Linked(list) && AllFit(list)
      ensures Valid() && Windows(nodes) == Windows(list) && begun == [] && timer == Idle
    {
      hide Linked, AllFit, Windows;
      var head, copy := Copy(job, list);
      trigger, nodes, begun, timer := head, copy, [], Idle;
    }

    /** begin_Scheduler: a recording of `seconds` from `now` on. */
    method Begin(now: nat, seconds: nat)
      modifies this`begun
      ensures begun == old(begun) + [Window(now, seconds)]
    {
      begun := begun + [Window(now, seconds)];
    }

    /** The head of the list goes. */
    method Pop()
      requires Valid() && trigger != null
      modifies this`trigger, this`nodes
      ensures Valid() && nodes == old(nodes)[1..] && Windows(nodes) == old(Windows(nodes))[1..]
    {
      hide Windows;
      PopLinked(nodes);
      trigger := trigger.next;
      nodes := nodes[1..];
    }

    /** deal_this_trigger: start what is due at `now`, arm the timer for what comes next. */
    method DealThisTrigger(now: nat) returns (code: int)
      requires Valid() && now < UINT32
      modifies this
      ensures Valid()
      ensures var d := Deal(old(Windows(nodes)), now, old(timer));
              Windows(nodes) == d.left && begun == old(begun) + d.begun && timer == d.timer && code == d.code
    {
      hide Windows, Linked, AllFit, Deal, Delay32;
      while trigger != null
        invariant Valid() && timer == old(timer) && begun == old(begun)
        invariant Deal(Windows(nodes), now, timer) == Deal(old(Windows(nodes)), now, old(timer))
        decreases |nodes|
      {
        HeadFits(nodes);
        DealHead(Windows(nodes), now, timer);
        if now < trigger.startTime {
          timer := Armed(Delay32(trigger.startTime, now));
          return 1;
        } else if now < Add32(trigger.startTime, trigger.scheduleInterval) {
          Begin(now, trigger.scheduleInterval - (now - trigger.startTime));
          Pop();
          if trigger != null {
            timer := Armed(Delay32(trigger.startTime, now));
          }
          return 1;
        } else {
          Pop();
        }
      }
      DealNone(now, timer);
      timer := Idle;
      return 0;
    }
  }

  /** The recordings still to come once the timer is armed for the next window. */
  function ToCome(ws: seq<Window>): seq<Window>
    requires Separated(ws) && InRange(ws)
  {
    if ws == [] then [] else Punctual(ws, ws[0].start)
  }

  lemma {:induction false} DealAnyTimer(ws: seq<Window>, now: nat, timer: Timer)
    ensures Deal(ws, now, timer).left == Deal(ws, now, Idle).left && Deal(ws, now, timer).begun == Deal(ws, now, Idle).begun
  {
    if ws != [] && now >= ws[0].End() {
      DealAnyTimer(ws[1..], now, timer);
    }
  }

  /** One call of a punctual run. */
  lemma DealTurn(ws: seq<Window>, now: nat, timer: Timer)
    requires Separated(ws) && InRange(ws)
    ensures var d := Deal(ws, now, timer);
            && Separated(d.left) && InRange(d.left) && Punctual(ws, now) == d.begun + ToCome(d.left)
            && (d.left != [] ==> d.left[0].start > now && d.timer == Armed((d.left[0].start - now) * 1000))
            && (d.left != [] ==> d.left[0].start <= MAX_SECONDS)
            && (ws != [] && now >= ws[0].start ==> |d.left| < |ws|)
  {
    hide Separated, Punctual;
    DealAnyTimer(ws, now, timer);
    DealArms(ws, now, timer);
    PunctualTurn(ws, now);
    var d := Deal(ws, now, timer);
    assert d.begun + [] == d.begun;
    assert d.left != [] ==> d.left[0] in d.left;
  }

  /** The windows left, the timer and the recordings begun after a call at t, in a run that is to record `goal`. */
  ghost predicate Running(left: seq<Window>, t: nat, timer: Timer, begun: seq<Window>, goal: seq<Window>)
  {
    && Separated(left) && InRange(left) && begun + ToCome(left) == goal
    && (left != [] ==> t < left[0].start <= MAX_SECONDS && timer == Armed((left[0].start - t) * 1000))
  }

  lemma RunningMore(ws: seq<Window>, t: nat, timer: Timer, begun: seq<Window>)
    requires Separated(ws) && InRange(ws)
    ensures var d := Deal(ws, t, timer); Running(d.left, t, d.timer, begun + d.begun, begun + Punctual(ws, t))
  {
    hide Separated, InRange, Punctual, Deal;
    DealTurn(ws, t, timer);
  }

  /** A call at `now`, and then those of the timer, each at the second for which it was armed, until no window is left: the
      recordings begun are those of the punctual run. */
  method RunPunctually(channel: Channel, now: nat)
    requires channel.Valid() && Separated(Windows(channel.nodes)) && InRange(Windows(channel.nodes)) && now < UINT32
    modifies channel
    ensures channel.Valid() && channel.trigger == null
    ensures channel.begun == old(channel.begun) + Punctual(old(Windows(channel.nodes)), now)
  {
    hide Separated, InRange, Punctual, Deal, ToCome, Windows, Linked, AllFit;
    ghost var goal := channel.begun + Punctual(Windows(channel.nodes), now);
    var t: nat := now;
    RunningMore(Windows(channel.nodes), t, channel.timer, channel.begun);
    var code := channel.DealThisTrigger(t);
    while channel.trigger != null
      invariant channel.Valid() && Running(Windows(channel.nodes), t, channel.timer, channel.begun, goal)
      decreases |channel.nodes|
    {
      ghost var left := Windows(channel.nodes);
      RunningDue(left, t, channel.timer, channel.begun, goal);
      t := t + channel.timer.delay / 1000;
      DealTurn(left, t, channel.timer);
      RunningMore(left, t, channel.timer, channel.begun);
      code := channel.DealThisTrigger(t);
    }
    RunningOver(t, channel.timer, channel.begun, goal);
  }

  /** The timer's next call comes at the start of the next window. */
  lemma RunningDue(left: seq<Window>, t: nat, timer: Timer, begun: seq<Window>, goal: seq<Window>)
    requires Running(left, t, timer, begun, goal) && left != []
    ensures timer.Armed? && t + timer.delay / 1000 == left[0].start < UINT32 && begun + Punctual(left, left[0].start) == goal
  {
    hide Punctual;
  }

  lemma RunningOver(t: nat, timer: Timer, begun: seq<Window>, goal: seq<Window>)
    requires Running([], t, timer, begun, goal)
    ensures begun == goal
  {
  }

  lemma PopLinked(nodes: seq<Trigger>)
    requires Linked(nodes) && AllFit(nodes)
    ensures nodes[0].next == if |nodes| > 1 then nodes[1] else null
    ensures |nodes| > 1 ==> Linked(nodes[1..]) && AllFit(nodes[1..])
    ensures Windows(nodes[1..]) == Windows(nodes)[1..]
  {
  }

  /** What a call does about the head. */
  lemma DealHead(ws: seq<Window>, now: nat, timer: Timer)
    requires ws != []
    ensures now < ws[0].start ==> Deal(ws, now, timer) == Dealt(ws, [], Armed(Delay32(ws[0].start, now)), 1)
    ensures ws[0].start <= now < ws[0].start + ws[0].len ==>
              Deal(ws, now, timer) == Dealt(ws[1..], [Window(now, ws[0].len - (now - ws[0].start))],
                                            if |ws| > 1 then Armed(Delay32(ws[1].start, now)) else timer, 1)
    ensures now >= ws[0].start + ws[0].len ==> Deal(ws, now, timer) == Deal(ws[1..], now, timer)
  {
  }

  lemma DealNone(now: nat, timer: Timer)
    ensures Deal([], now, timer) == Dealt([], [], Idle, 0)
  {
  }

  lemma HeadFits(nodes: seq<Trigger>)
    requires nodes != [] && AllFit(nodes)
    ensures Fits(nodes[0].Win()) && Windows(nodes)[0] == nodes[0].Win()
  {
  }

  /** From a job's triggers to its recordings: the list is built and copied to the channel, which then runs with a punctual
      timer. Recorded is each second from `now` on that the first trigger's window holds, or that of a trigger whose
      calendar asks for work; and each recording ends before the next one starts. */
  method RecordJob(es: seq<Entry>, now: nat) returns (begun: seq<Window>)
    requires es != [] && now < UINT32
    requires forall e <- es :: e.window.start + e.window.len < 0x1_0000_0000
    requires forall i :: 0 <= i < |es| && (i == 0 || es[i].needWork) ==> es[i].window.start <= 4294967
    ensures forall i :: 0 < i < |begun| ==> begun[i - 1].start + begun[i - 1].len < begun[i].start
    ensures forall t: int :: Covers(begun, t) <==>
              && t >= now
              && exists i :: && 0 <= i < |es| && (i == 0 || es[i].needWork)
                             && es[i].window.start <= t < es[i].window.start + es[i].window.len
  {
    JobMeans(es, now);
    hide Covers, InRange, Used, Separated, Fold, Punctual;
    begun := RunJob(es, now);
  }

  lemma JobMeans(es: seq<Entry>, now: nat)
    requires es != []
    requires forall i :: 0 <= i < |es| && (i == 0 || es[i].needWork) ==> es[i].window.start <= 4294967
    ensures var ws := Fold(Used(es));
            && Separated(ws) && InRange(ws)
            && (forall i :: 0 < i < |Punctual(ws, now)| ==>
                 Punctual(ws, now)[i - 1].start + Punctual(ws, now)[i - 1].len < Punctual(ws, now)[i].start)
            && forall t: int :: Covers(Punctual(ws, now), t) <==>
                 && t >= now
                 && exists i :: && 0 <= i < |es| && (i == 0 || es[i].needWork)
                                && es[i].window.start <= t < es[i].window.start + es[i].window.len
  {
    hide Separated, InRange, Punctual, Fold, Covers, Disjoint;
    JobRecords(es, now);
    PunctualCovers(Fold(Used(es)), now);
    SeparatedGaps(Punctual(Fold(Used(es)), now));
  }

  /** A job's list, its copy, and the run. */
  method RunJob(es: seq<Entry>, now: nat) returns (begun: seq<Window>)
    requires es != [] && now < UINT32 && EntriesFit(es) && Separated(Fold(Used(es))) && InRange(Fold(Used(es)))
    ensures begun == Punctual(Fold(Used(es)), now)
  {
    hide Separated, InRange, Punctual, Linked, AllFit, Windows, Fold, EntriesFit;
    var head, nodes := FromEntries(es);
    var channel := new Channel(head, nodes);
    RunPunctually(channel, now);
    begun := channel.begun;
    assert [] + Punctual(Fold(Used(es)), now) == begun;
  }
}
