/** What a recording session makes of the frames that come: which file each goes to, when a new file is begun, and with what
    it starts. */
module CaptureEvents {
  import opened RecordIndex
  import opened CaptureSpec
  import opened Options
  import opened CaptureSafety
  import opened CaptureRuns

  // ---- one event

  /** A frame begins a new file exactly if it is an I-frame and, in 32 bits, 20 minutes have passed since the time of the file
      last begun. A clock that has been set back looks late. */
  lemma NewFileIff(s: State, f: Frame, closeAt: Clock, openAt: Clock)
    requires Safe(s) && Quiet(s) && Enabled(s, FrameIn(f, closeAt, openAt))
    ensures var more, d := |Step(s, FrameIn(f, closeAt, openAt)).info.plan| - |s.info.plan|, f.at.ms - s.startTime.ms;
            && (more == 0 || more == 1)
            && (more == 1 <==> f.kind == 1 && d % 0x1_0000_0000 >= 1200000)
            && (0 <= d < 0x1_0000_0000 ==> (more == 1 <==> f.kind == 1 && d >= 1200000))
            && (1200000 - 0x1_0000_0000 <= d < 0 ==> (more == 1 <==> f.kind == 1))
  {
    hide Safe, Quiet, Step, Enabled;
    FrameMeans(s, f, closeAt, openAt);
    var d := f.at.ms - s.startTime.ms;
    if 0 <= d < 0x1_0000_0000 {
      assert d % 0x1_0000_0000 == d;
    } else if 1200000 - 0x1_0000_0000 <= d < 0 {
      assert d % 0x1_0000_0000 == d + 0x1_0000_0000;
    }
  }

  /** Where a frame goes: with the system header in front of it to a new file, or behind the others of the last file, unless
      more than 500 packages wait. */
  lemma FrameMeans(s: State, f: Frame, closeAt: Clock, openAt: Clock)
    requires Safe(s) && Quiet(s) && Enabled(s, FrameIn(f, closeAt, openAt))
    ensures var i, t := s.info, Step(s, FrameIn(f, closeAt, openAt)).info;
            var h := if i.header.Some? then [i.header.value] else [];
            if f.kind == 1 && (f.at.ms - s.startTime.ms) % 0x1_0000_0000 >= 1200000 then
              t.plan == i.plan + [h + [f]] && t.accepted == i.accepted + h + [f]
            else if |s.queue| <= 500 then
              && i.plan != [] && t.plan == i.plan[..|i.plan| - 1] + [i.plan[|i.plan| - 1] + [f]]
              && t.accepted == i.accepted + [f]
            else t.plan == i.plan && t.accepted == i.accepted
  {
    FrameStep(s, f, closeAt, openAt);
    LateIs(s, f);
    hide Safe, Quiet, AddAndStart, Incise, Step, Enabled, Incises;
    if Incises(s, f) {
      IncisionBeginsSegment(s, f, closeAt, openAt);
    } else {
      hide KeepHeader;
      PlainFrameKeeps(KeepHeader(s, f), f);
      PlainMeans(s, f);
    }
  }

  lemma LateIs(s: State, f: Frame)
    ensures Incises(s, f) <==> f.kind == 1 && (f.at.ms - s.startTime.ms) % 0x1_0000_0000 >= 1200000
    ensures Incises(KeepHeader(s, f), f) <==> Incises(s, f)
  {
  }

  /** A frame behind the others of the last file. */
  lemma PlainMeans(s: State, f: Frame)
    requires var k := KeepHeader(s, f); Safe(k) && k.alive && !k.info.ending && k.info.responded
    ensures var k, i := KeepHeader(s, f), s.info;
            && i.plan != [] && k.info.plan == i.plan && k.info.accepted == i.accepted && (HasRoom(k) <==> |s.queue| <= 500)
            && Planned(i.plan, FramePackage(f)) == i.plan[..|i.plan| - 1] + [i.plan[|i.plan| - 1] + [f]]
  {
    SafeOpen(KeepHeader(s, f));
  }

  lemma SafeOpen(s: State)
    requires Safe(s) && s.alive && !s.info.ending && s.info.responded
    ensures s.info.plan != []
  {
    PlanNonempty(s);
  }

  /** No other event changes which frames go where; the answer asks for the first file. */
  lemma OthersMean(s: State, e: Event)
    requires Safe(s) && Quiet(s) && Enabled(s, e) && !e.FrameIn?
    ensures var t := Step(s, e).info;
            t.accepted == s.info.accepted && t.plan == if e.Response? then [[]] else s.info.plan
  {
    hide FilesOf, FramesOf, Flatten, Ordered, OpenAfter, Start;
    if Completion(e) {
      CompletionKeeps(s, e);
    } else if e.StreamClosed? {
      hide OnStreamClosed;
      ClosedMeans(s, e.closeAt, e.endAt);
    } else if e.Response? {
      assert s.info.accepted + [] == s.info.accepted;
    }
  }

  lemma ClosedMeans(s: State, closeAt: Clock, endAt: Clock)
    ensures var t := OnStreamClosed(s, closeAt, endAt).info; t.accepted == s.info.accepted && t.plan == s.info.plan
  {
    hide Start;
    assert s.info.accepted + [] == s.info.accepted;
  }

  /** The system header is the last one that has come. */
  lemma HeaderStep(s: State, e: Event)
    requires Enabled(s, e)
    ensures Step(s, e).info.header == if e.FrameIn? && e.frame.kind == 0x80 then Some(e.frame) else s.info.header
  {
    hide Start, OnFrame;
    if e.FrameIn? {
      FrameHeader(s, e.frame, e.closeAt, e.openAt);
    }
  }

  lemma FrameHeader(s: State, f: Frame, closeAt: Clock, openAt: Clock)
    ensures OnFrame(s, f, closeAt, openAt).info.header == if f.kind == 0x80 then Some(f) else s.info.header
  {
    hide Start, AddAndStart, Add;
    var k := KeepHeader(s, f);
    if Incises(k, f) {
      AddHeader(k, CloseFile(closeAt));
      var c := AddAndStart(k, CloseFile(closeAt));
      AddHeader(c, OpenFile(openAt));
      var o := AddAndStart(c, OpenFile(openAt));
      if o.info.header.Some? {
        AddHeader(o, FramePackage(o.info.header.value));
      }
      AddHeader(Incise(k, closeAt, openAt), FramePackage(f));
    } else {
      AddHeader(k, FramePackage(f));
    }
  }

  lemma AddHeader(s: State, p: Package)
    ensures Add(s, p).info.header == AddAndStart(s, p).info.header == s.info.header
  {
    hide Start;
  }

  // ---- a run

  predicate IsHeader(e: Event)
  {
    e.FrameIn? && e.frame.kind == 0x80
  }

  /** The last frame of type 0x80 in the events. */
  function LastHeader(es: seq<Event>): (h: Option<Frame>)
    ensures h.None? <==> forall e <- es :: !(e.FrameIn? && e.frame.kind == 0x80)
    ensures h.Some? ==> exists i :: 0 <= i < |es| && es[i].FrameIn? && es[i].frame == h.value && h.value.kind == 0x80
                                 && forall j :: i < j < |es| ==> !(es[j].FrameIn? && es[j].frame.kind == 0x80)
  {
    if es == [] then None
    else
      var n := |es| - 1;
      assert es == es[..n] + [es[n]];
      if IsHeader(es[n]) then Some(es[n].frame)
      else LastHeader(es[..n])
  }

  lemma RunLast(s: State, es: seq<Event>)
    requires CanRun(s, es) && es != []
    ensures var n := |es| - 1;
            CanRun(s, es[..n]) && Enabled(Run(s, es[..n]), es[n]) && Run(s, es) == Step(Run(s, es[..n]), es[n])
  {
    hide Enabled, Step;
    var n := |es| - 1;
    assert es == es[..n] + [es[n]];
    RunAppend(s, es[..n], [es[n]]);
    assert [es[n]][1..] == [];
  }

  lemma {:induction false} RunHeader(job: bool, now: Clock, es: seq<Event>)
    requires CanRun(Initial(job, now), es)
    ensures Run(Initial(job, now), es).info.header == LastHeader(es)
    decreases |es|
  {
    hide CanRun, Enabled, Step;
    if es != [] {
      RunLast(Initial(job, now), es);
      RunHeader(job, now, es[..|es| - 1]);
      HeaderStep(Run(Initial(job, now), es[..|es| - 1]), es[|es| - 1]);
    }
  }

  /** File k was asked for at the event number i, an I-frame, and begins with the last system header before it, if any, and
      that frame. */
  ghost predicate AskedAt(s: State, es: seq<Event>, i: nat, k: nat, fs: seq<Frame>)
  {
    && i < |es| && es[i].FrameIn? && es[i].frame.kind == 1
    && CanRun(s, es[..i]) && |Run(s, es[..i]).info.plan| == k
    && (if LastHeader(es[..i]).Some? then [LastHeader(es[..i]).value] else []) + [es[i].frame] <= fs
  }

  /** What the events before the last have asked for stays asked for. */
  lemma AskedStays(s: State, es: seq<Event>, i: nat, k: nat, fs: seq<Frame>, more: seq<Frame>)
    requires es != [] && AskedAt(s, es[..|es| - 1], i, k, fs) && fs <= more
    ensures AskedAt(s, es, i, k, more)
  {
    assert es[..|es| - 1][..i] == es[..i];
  }

  /** An event begins at most one file, and only adds to the others. */
  lemma PlanGrows(s: State, e: Event)
    requires Safe(s) && Quiet(s) && Enabled(s, e)
    ensures var p, q := s.info.plan, Step(s, e).info.plan;
            && |p| <= |q| <= |p| + 1
            && (forall k :: 0 <= k < |p| ==> p[k] <= q[k])
            && (|q| > |p| > 0 ==>
                  && e.FrameIn? && e.frame.kind == 1
                  && q[|p|] == (if s.info.header.Some? then [s.info.header.value] else []) + [e.frame])
  {
    hide Step, Enabled;
    if e.FrameIn? {
      FrameMeans(s, e.frame, e.closeAt, e.openAt);
    } else {
      OthersMean(s, e);
      if e.Response? {
        ResponseFirst(s, e);
      }
    }
  }

  lemma ResponseFirst(s: State, e: Event)
    requires Safe(s) && Quiet(s) && Enabled(s, e) && e.Response?
    ensures s.info.plan == []
  {
  }

  lemma {:induction false} PlanAsked(job: bool, now: Clock, es: seq<Event>, k: nat)
    requires CanRun(Initial(job, now), es) && 1 <= k < |Run(Initial(job, now), es).info.plan|
    ensures exists i: nat :: AskedAt(Initial(job, now), es, i, k, Run(Initial(job, now), es).info.plan[k])
    decreases |es|
  {
    hide CanRun, Enabled, Step, Safe, Quiet, AskedAt, Run;
    var s0 := Initial(job, now);
    if es == [] {
      NothingAsked(s0);
    } else {
      var n := |es| - 1;
      RunLast(s0, es);
      var s, t := Run(s0, es[..n]), Run(s0, es);
      InitialSafe(job, now);
      RunKeeps(s0, es[..n]);
      PlanGrows(s, es[n]);
      if k < |s.info.plan| {
        PlanAsked(job, now, es[..n], k);
        var i: nat :| AskedAt(s0, es[..n], i, k, s.info.plan[k]);
        AskedStays(s0, es, i, k, s.info.plan[k], t.info.plan[k]);
      } else {
        RunHeader(job, now, es[..n]);
        AskedNow(s0, es, k, t.info.plan[k]);
      }
    }
  }

  lemma NothingAsked(s: State)
    ensures CanRun(s, []) && Run(s, []) == s
  {
  }

  lemma AskedNow(s: State, es: seq<Event>, k: nat, fs: seq<Frame>)
    requires es != [] && CanRun(s, es[..|es| - 1]) && |Run(s, es[..|es| - 1]).info.plan| == k
    requires var n := |es| - 1;
             && es[n].FrameIn? && es[n].frame.kind == 1
             && fs == (if LastHeader(es[..n]).Some? then [LastHeader(es[..n]).value] else []) + [es[n].frame]
    ensures AskedAt(s, es, |es| - 1, k, fs)
  {
  }

  /** Every file after the first that a run closes was asked for when an I-frame came, and begins with the last system header
      that had come before, if any, and that frame. */
  lemma RunSegments(job: bool, now: Clock, es: seq<Event>, k: nat)
    requires CanRun(Initial(job, now), es)
    requires 1 <= k < |Run(Initial(job, now), es).files|
    ensures exists i: nat :: AskedAt(Initial(job, now), es, i, k, Run(Initial(job, now), es).files[k])
  {
    hide CanRun, Enabled, Step, Run, AskedAt;
    var s := Run(Initial(job, now), es);
    InitialSafe(job, now);
    RunKeeps(Initial(job, now), es);
    ClosedPlanned(s, k);
    PlanAsked(job, now, es, k);
  }

  lemma ClosedPlanned(s: State, k: nat)
    requires Safe(s) && k < |s.files|
    ensures k < |s.info.plan| && s.info.plan[k] == s.files[k]
  {
  }

  // ---- the time of a file

  /** The times of the files that a queue asks for. */
  function OpensOf(q: seq<Package>): seq<Clock>
  {
    if q == [] then [] else (if q[0].OpenFile? then [q[0].at] else []) + OpensOf(q[1..])
  }

  lemma {:induction false} OpensMore(q: seq<Package>, p: Package)
    ensures OpensOf(q + [p]) == OpensOf(q) + if p.OpenFile? then [p.at] else []
  {
    var more := if p.OpenFile? then [p.at] else [];
    if q == [] {
      assert ([] + [p])[1..] == [] && more + [] == [] + more;
    } else {
      assert (q + [p])[1..] == q[1..] + [p];
      OpensMore(q[1..], p);
      var first := if q[0].OpenFile? then [q[0].at] else [];
      assert first + (OpensOf(q[1..]) + more) == first + OpensOf(q[1..]) + more;
    }
  }

  /** How many files have been begun: the closed ones and, if there is one, the one that is open or being opened. */
  function BegunFiles(s: State): nat
  {
    |s.files| + if s.fileOpened || (s.queue != [] && s.queue[0].OpenFile?) then 1 else 0
  }

  /** `opens` are the times of the files asked for: the session's start time is that of the file last begun, and those of the
      others still wait in the queue. */
  ghost predicate OpensInv(s: State, opens: seq<Clock>)
  {
    var n := BegunFiles(s);
    && n <= |opens| && (n > 0 ==> s.startTime == opens[n - 1])
    && opens[n..] == OpensOf(if s.queue != [] && s.queue[0].OpenFile? then s.queue[1..] else s.queue)
  }

  /** The same, before work on the head begins. */
  ghost predicate OpensReady(s: State, opens: seq<Clock>)
  {
    var n := |s.files| + if s.fileOpened then 1 else 0;
    n <= |opens| && (n > 0 ==> s.startTime == opens[n - 1]) && opens[n..] == OpensOf(s.queue)
  }

  /** Closing the file. */
  lemma CloseOpens(s: State, t: State, opens: seq<Clock>)
    requires Ready(s) && OpensReady(s, opens) && s.queue != [] && s.queue[0].CloseFile?
    requires t == CloseFiles(s).(queue := s.queue[1..])
    ensures s.info.job ==> OpensInv(Start(s), opens)
    ensures !s.info.job ==> Ready(t) && OpensReady(t, opens) && Start(s) == Start(t)
  {
    hide FilesOf, FramesOf, Flatten, OpenAfter, Ordered;
    OrderedHead(s.queue, s.fileOpened);
    ClosePackage(s, t);
  }

  /** Starting on any other head. */
  lemma HeadOpens(s: State, opens: seq<Clock>)
    requires Ready(s) && OpensReady(s, opens) && s.queue != [] && !s.queue[0].CloseFile?
    ensures OpensInv(Start(s), opens)
  {
    hide FilesOf, FramesOf, Flatten, OpenAfter, Ordered;
    OrderedHead(s.queue, s.fileOpened);
    var n := |s.files| + if s.fileOpened then 1 else 0;
    match s.queue[0]
    case OpenFile(at) => assert opens[n] == at && opens[n + 1..] == OpensOf(s.queue[1..]);
    case CloseSession(_) => assert s.queue[1..] == [];
    case FramePackage(_) =>
  }

  lemma {:induction false} StartOpens(s: State, opens: seq<Clock>)
    requires Ready(s) && OpensReady(s, opens)
    ensures OpensInv(Start(s), opens)
    decreases |s.queue|
  {
    if s.queue != [] && s.queue[0].CloseFile? {
      hide Ready, OpensReady, OpensInv, Start;
      var t := CloseFiles(s).(queue := s.queue[1..]);
      CloseOpens(s, t, opens);
      if !s.info.job {
        StartOpens(t, opens);
      }
    } else if s.queue != [] {
      hide Ready, OpensReady, OpensInv, Start;
      HeadOpens(s, opens);
    }
  }

  lemma CompletionOpens(s: State, e: Event, opens: seq<Clock>)
    requires Safe(s) && Enabled(s, e) && Completion(e) && OpensInv(s, opens)
    ensures OpensInv(Step(s, e), opens)
  {
    hide FilesOf, FramesOf, Flatten, OpenAfter, Ordered, Start;
    match e
    case IifOpened =>
      IifOpenedReady(s);
      if !s.info.job {
        StartOpens(s.(fileOpened := true, queue := s.queue[1..], operation := Idle), opens);
      }
    case Written =>
      WrittenReady(s);
      StartOpens(s.(current := s.current + [s.queue[0].frame], queue := s.queue[1..], operation := Idle), opens);
    case Inserted => StartOpens(s.(queue := s.queue[1..], operation := Idle), opens);
    case Updated => StartOpens(s.(queue := s.queue[1..], operation := Idle), opens);
    case _ =>
  }

  /** A package that joins the queue. */
  lemma AddOpens(s: State, p: Package, opens: seq<Clock>)
    requires Inv(s) && s.alive && !s.info.ending && HasRoom(s) && Fits(s, p) && OpensInv(s, opens)
    ensures OpensInv(AddAndStart(s, p), opens + if p.OpenFile? then [p.at] else [])
  {
    hide FilesOf, FramesOf, Flatten, OpenAfter, Ordered, Start, OpensInv, OpensReady;
    AddKeeps(s, p);
    if s.queue == [] {
      FirstOpens(s, p, opens);
      StartOpens(Add(s, p), opens + if p.OpenFile? then [p.at] else []);
    } else {
      StartBusy(Add(s, p));
      BehindOpens(s, p, opens);
    }
  }

  lemma FirstOpens(s: State, p: Package, opens: seq<Clock>)
    requires s.queue == [] && HasRoom(s) && OpensInv(s, opens)
    ensures OpensReady(Add(s, p), opens + if p.OpenFile? then [p.at] else [])
  {
    OpensMore([], p);
    assert [] + [p] == [p];
  }

  lemma BehindOpens(s: State, p: Package, opens: seq<Clock>)
    requires s.queue != [] && HasRoom(s) && OpensInv(s, opens)
    ensures OpensInv(Add(s, p), opens + if p.OpenFile? then [p.at] else [])
  {
    var t := Add(s, p);
    Added(s, p);
    assert t.queue == s.queue + [p] && t.startTime == s.startTime && t.queue[0] == s.queue[0];
    hide OpensOf, Add, Planned;
    BehindQueue(s.queue, p, BegunFiles(s), opens);
  }

  /** The times behind the head, before and after. */
  lemma BehindQueue(q: seq<Package>, p: Package, n: nat, opens: seq<Clock>)
    requires q != [] && n <= |opens|
    requires opens[n..] == OpensOf(if q[0].OpenFile? then q[1..] else q)
    ensures (opens + if p.OpenFile? then [p.at] else [])[n..] == OpensOf(if q[0].OpenFile? then (q + [p])[1..] else q + [p])
  {
    OpensMore(if q[0].OpenFile? then q[1..] else q, p);
    assert (q + [p])[1..] == q[1..] + [p];
    hide OpensOf;
    var more := if p.OpenFile? then [p.at] else [];
    assert (opens + more)[n..] == opens[n..] + more;
  }

  lemma FullOpens(s: State, p: Package, opens: seq<Clock>)
    requires Inv(s) && s.alive && !HasRoom(s) && OpensInv(s, opens)
    ensures OpensInv(AddAndStart(s, p), opens)
  {
    RefusedPackage(s, p);
  }

  /** The time of the file that an event asks for. */
  function AskedTime(s: State, e: Event): seq<Clock>
  {
    if e.Response? then [e.at]
    else if e.FrameIn? && Incises(KeepHeader(s, e.frame), e.frame) then [e.openAt]
    else []
  }

  lemma FrameOpens(s: State, f: Frame, closeAt: Clock, openAt: Clock, opens: seq<Clock>)
    requires Safe(s) && Quiet(s) && Enabled(s, FrameIn(f, closeAt, openAt)) && OpensInv(s, opens)
    ensures OpensInv(Step(s, FrameIn(f, closeAt, openAt)), opens + AskedTime(s, FrameIn(f, closeAt, openAt)))
  {
    FrameStep(s, f, closeAt, openAt);
    var k := KeepHeader(s, f);
    assert OpensInv(k, opens);
    hide FilesOf, FramesOf, Flatten, OpenAfter, Ordered, Start, AddAndStart, Incise, OpensInv, Step, Enabled, Quiet;
    if Incises(k, f) {
      InciseOpens(k, closeAt, openAt, opens);
      InciseKeeps(k, closeAt, openAt);
      AddOpens(Incise(k, closeAt, openAt), FramePackage(f), opens + [openAt]);
      assert opens + [openAt] + [] == opens + [openAt];
    } else {
      assert opens + [] == opens;
      if HasRoom(k) {
        AddOpens(k, FramePackage(f), opens);
      } else {
        FullOpens(k, FramePackage(f), opens);
      }
    }
  }

  lemma InciseOpens(s: State, closeAt: Clock, openAt: Clock, opens: seq<Clock>)
    requires Safe(s) && s.alive && !s.info.ending && s.info.responded && OpensInv(s, opens)
    requires |s.queue| + 3 <= MAX_CAPTURE_FRAME_LIST_LEN
    ensures OpensInv(Incise(s, closeAt, openAt), opens + [openAt])
  {
    hide FilesOf, FramesOf, Flatten, OpenAfter, Ordered, Start, OpensInv;
    var c := AddAndStart(s, CloseFile(closeAt));
    AddOpens(s, CloseFile(closeAt), opens);
    assert opens + [] == opens;
    AddAndStartKeeps(s, CloseFile(closeAt));
    AddOpens(c, OpenFile(openAt), opens);
    ReopenKeeps(s, closeAt, openAt);
    hide AddAndStart;
    var o := AddAndStart(c, OpenFile(openAt));
    if o.info.header.Some? {
      BehindOpens(o, FramePackage(o.info.header.value), opens + [openAt]);
      assert opens + [openAt] + [] == opens + [openAt];
    }
  }

  lemma EndOpens(s: State, closeAt: Clock, endAt: Clock, opens: seq<Clock>)
    requires Safe(s) && Enabled(s, StreamClosed(closeAt, endAt)) && OpensInv(s, opens)
    ensures OpensInv(Step(s, StreamClosed(closeAt, endAt)), opens)
  {
    hide FilesOf, FramesOf, Flatten, OpenAfter, Ordered, Start, AddAndStart, OpensInv;
    assert opens + [] == opens;
    if s.fileOpened {
      AddOpens(s, CloseFile(closeAt), opens);
      AddAndStartKeeps(s, CloseFile(closeAt));
      AddOpens(AddAndStart(s, CloseFile(closeAt)), CloseSession(endAt), opens);
    } else {
      AddOpens(s, CloseSession(endAt), opens);
    }
  }

  lemma StepOpens(s: State, e: Event, opens: seq<Clock>)
    requires Safe(s) && Quiet(s) && Enabled(s, e) && OpensInv(s, opens)
    ensures OpensInv(Step(s, e), opens + AskedTime(s, e))
  {
    hide FilesOf, FramesOf, Flatten, OpenAfter, Ordered, Start, Incise, OnFrame, OnStreamClosed;
    assert opens + [] == opens;
    match e
    case FrameIn(f, closeAt, openAt) => FrameOpens(s, f, closeAt, openAt, opens);
    case Response(at) => AddOpens(Answered(s), OpenFile(at), opens);
    case StreamClosed(closeAt, endAt) => EndOpens(s, closeAt, endAt, opens);
    case Stop =>
    case _ => CompletionOpens(s, e, opens);
  }

  /** The time that comes with an event which asks for a file. */
  ghost function Asked(s: State, e: Event): seq<Clock>
    requires Enabled(s, e)
  {
    if |Step(s, e).info.plan| == |s.info.plan| then []
    else
      match e
      case Response(at) => [at]
      case FrameIn(_, _, openAt) => [openAt]
      case _ => []
  }

  lemma AskedIs(s: State, e: Event)
    requires Safe(s) && Quiet(s) && Enabled(s, e)
    ensures Asked(s, e) == AskedTime(s, e) && |Step(s, e).info.plan| == |s.info.plan| + |Asked(s, e)|
  {
    hide Enabled, Step;
    if e.FrameIn? {
      NewFileIff(s, e.frame, e.closeAt, e.openAt);
    } else {
      OthersMean(s, e);
      if e.Response? {
        ResponseFirst(s, e);
      }
    }
  }

  /** The times of the files that a run asks for. */
  ghost function Opens(s: State, es: seq<Event>): seq<Clock>
    requires CanRun(s, es)
    decreases |es|
  {
    if es == [] then [] else Asked(s, es[0]) + Opens(Step(s, es[0]), es[1..])
  }

  lemma {:induction false} RunOpens(s: State, es: seq<Event>, opens: seq<Clock>)
    requires Safe(s) && Quiet(s) && CanRun(s, es) && OpensInv(s, opens)
    ensures OpensInv(Run(s, es), opens + Opens(s, es))
    ensures |Run(s, es).info.plan| == |s.info.plan| + |Opens(s, es)|
    decreases |es|
  {
    hide OpensInv, AskedTime, Asked, Step, Enabled, Safe, Quiet;
    if es == [] {
      assert opens + [] == opens;
    } else {
      AskedIs(s, es[0]);
      StepOpens(s, es[0], opens);
      StepKeeps(s, es[0]);
      RunOpens(Step(s, es[0]), es[1..], opens + AskedTime(s, es[0]));
      assert opens + Asked(s, es[0]) + Opens(Step(s, es[0]), es[1..]) == opens + Opens(s, es);
    }
  }

  /** The time from which the 20 minutes count is the one that came with the event that asked for the file last begun. */
  lemma RunStartTime(job: bool, now: Clock, es: seq<Event>)
    requires CanRun(Initial(job, now), es)
    ensures var s, times := Run(Initial(job, now), es), Opens(Initial(job, now), es);
            var begun := |s.files| + if s.fileOpened || (s.queue != [] && s.queue[0].OpenFile?) then 1 else 0;
            && |times| == |s.info.plan| && begun <= |times|
            && (begun > 0 ==> s.startTime == times[begun - 1])
  {
    hide CanRun, Run, Opens, Safe, Quiet;
    var s0 := Initial(job, now);
    InitialSafe(job, now);
    RunOpens(s0, es, []);
    assert [] + Opens(s0, es) == Opens(s0, es);
    hide Initial, OpensOf;
  }

  /** As long as a new file has not been begun, its time does not count: the next I-frame, however soon it comes, begins yet
      another file. */
  lemma CutsAgain(s: State, f: Frame, closeAt: Clock, openAt: Clock, g: Frame, closeAgain: Clock, openAgain: Clock)
    requires Safe(s) && Quiet(s) && Enabled(s, FrameIn(f, closeAt, openAt)) && s.queue != []
    requires f.kind == 1 && g.kind == 1 && 1200000 <= f.at.ms - s.startTime.ms <= g.at.ms - s.startTime.ms < 0x1_0000_0000
    requires Enabled(Step(s, FrameIn(f, closeAt, openAt)), FrameIn(g, closeAgain, openAgain))
    ensures var t := Step(Step(s, FrameIn(f, closeAt, openAt)), FrameIn(g, closeAgain, openAgain));
            && |t.info.plan| == |s.info.plan| + 2
            && t.info.plan[|s.info.plan| + 1] == (if s.info.header.Some? then [s.info.header.value] else []) + [g]
  {
    hide Safe, Quiet, Step, Enabled;
    var t := Step(s, FrameIn(f, closeAt, openAt));
    StepKeeps(s, FrameIn(f, closeAt, openAt));
    NewFileIff(s, f, closeAt, openAt);
    HeaderStep(s, FrameIn(f, closeAt, openAt));
    BusyStart(s, f, closeAt, openAt);
    NewFileIff(t, g, closeAgain, openAgain);
    PlanGrows(t, FrameIn(g, closeAgain, openAgain));
    PlanGrows(s, FrameIn(f, closeAt, openAt));
  }

  lemma BusyStart(s: State, f: Frame, closeAt: Clock, openAt: Clock)
    requires Safe(s) && Quiet(s) && Enabled(s, FrameIn(f, closeAt, openAt)) && s.queue != []
    ensures Step(s, FrameIn(f, closeAt, openAt)).startTime == s.startTime
  {
    hide FilesOf, FramesOf, Flatten, OpenAfter, Ordered, Start, Incise;
    var k := KeepHeader(s, f);
    BusyAdd(k, FramePackage(f));
    if Incises(k, f) {
      BusyIncise(k, closeAt, openAt);
      BusyAdd(Incise(k, closeAt, openAt), FramePackage(f));
    }
  }

  lemma BusyIncise(s: State, closeAt: Clock, openAt: Clock)
    requires s.alive && Busy(s) && s.queue != []
    ensures var t := Incise(s, closeAt, openAt); t.alive && Busy(t) && t.queue != [] && t.startTime == s.startTime
  {
    hide Start, Busy, AddAndStart;
    BusyAdd(s, CloseFile(closeAt));
    var c := AddAndStart(s, CloseFile(closeAt));
    BusyAdd(c, OpenFile(openAt));
    var o := AddAndStart(c, OpenFile(openAt));
    if o.info.header.Some? {
      BusyAdd(o, FramePackage(o.info.header.value));
    }
  }

  lemma BusyAdd(s: State, p: Package)
    requires s.alive && Busy(s) && s.queue != []
    ensures AddAndStart(s, p) == Add(s, p)
    ensures var t := Add(s, p); t.alive && Busy(t) && t.queue != [] && t.startTime == s.startTime
  {
    StartBusy(Add(s, p));
  }
}
