/** Whole runs of a recording session, from its first package to its end. */
module CaptureRuns {
  import opened RecordIndex
  import opened CaptureSpec
  import opened Options
  import opened CaptureSafety

  function HeaderPart(h: Option<Frame>): seq<Frame>
  {
    if h.Some? then [h.value] else []
  }

  /** Between events: the invariant; a file is or will be open from the response on. */
  ghost predicate Safe(s: State)
  {
    && Inv(s)
    && (s.alive && !s.info.ending ==> WillBeOpen(s) == s.info.responded)
    && (s.alive && !s.info.ending && !s.info.responded ==> s.queue == [] && !s.fileOpened && s.info.plan == [])
  }

  ghost predicate CanRun(s: State, es: seq<Event>)
    decreases |es|
  {
    es == [] || (Enabled(s, es[0]) && CanRun(Step(s, es[0]), es[1..]))
  }

  ghost function Run(s: State, es: seq<Event>): State
    requires CanRun(s, es)
    decreases |es|
  {
    if es == [] then s else Run(Step(s, es[0]), es[1..])
  }

  // ---- completions

  /** Dropping a head whose work is done. */
  lemma NextKeeps(s: State, t: State)
    requires Ready(t) && t == s.(queue := if s.queue == [] then [] else s.queue[1..], operation := Idle)
    ensures Inv(Next(s)) && Next(s).info == s.info
    ensures Next(s).alive ==> WillBeOpen(Next(s)) == OpenAfter(t.queue, t.fileOpened)
    ensures Next(s).alive || s.info.ending
  {
    hide Start;
    StartKeeps(t);
  }

  lemma WrittenKeeps(s: State)
    requires Inv(s) && Enabled(s, Written)
    ensures Inv(Step(s, Written)) && Step(s, Written).info == s.info
    ensures Step(s, Written).alive ==> WillBeOpen(Step(s, Written)) == WillBeOpen(s)
    ensures Step(s, Written).alive || s.info.ending
  {
    hide Start, FilesOf, FramesOf, Flatten, Ordered, OpenAfter;
    var w := s.(current := s.current + [s.queue[0].frame]);
    var t := w.(queue := s.queue[1..], operation := Idle);
    HeadDone(s, t);
    NextKeeps(w, t);
  }

  lemma WrittenReady(s: State)
    requires Safe(s) && Enabled(s, Written)
    ensures Ready(s.(current := s.current + [s.queue[0].frame], queue := s.queue[1..], operation := Idle)) && s.fileOpened
  {
    hide FilesOf, FramesOf, Flatten, OpenAfter, Ordered;
    HeadDone(s, s.(current := s.current + [s.queue[0].frame], queue := s.queue[1..], operation := Idle));
  }

  lemma IifOpenedReady(s: State)
    requires Inv(s) && Enabled(s, IifOpened)
    ensures s.queue != [] && s.current == []
    ensures var t := s.(fileOpened := true, queue := s.queue[1..], operation := Idle);
            Ready(t) && OpenAfter(t.queue, t.fileOpened) == WillBeOpen(s)
  {
    hide Start, FilesOf, FramesOf, Flatten, Ordered, OpenAfter;
    assert s.files + [] == s.files;
    HeadDone(s, s.(fileOpened := true, queue := s.queue[1..], operation := Idle));
  }

  lemma IifOpenedKeeps(s: State)
    requires Inv(s) && Enabled(s, IifOpened)
    ensures Inv(Step(s, IifOpened)) && Step(s, IifOpened).info == s.info
    ensures Step(s, IifOpened).alive ==> WillBeOpen(Step(s, IifOpened)) == WillBeOpen(s)
    ensures Step(s, IifOpened).alive || s.info.ending
  {
    hide Start, FilesOf, FramesOf, Flatten, Ordered, OpenAfter;
    IifOpenedReady(s);
    if !s.info.job {
      var o := s.(fileOpened := true);
      NextKeeps(o, o.(queue := s.queue[1..], operation := Idle));
    }
  }

  lemma RowWrittenKeeps(s: State, e: Event)
    requires Inv(s) && Enabled(s, e) && (e == Inserted || e == Updated)
    ensures Inv(Step(s, e)) && Step(s, e).info == s.info
    ensures Step(s, e).alive ==> WillBeOpen(Step(s, e)) == WillBeOpen(s)
    ensures Step(s, e).alive || s.info.ending
  {
    hide Start, FilesOf, FramesOf, Flatten, Ordered, OpenAfter;
    NextKeeps(s, s.(queue := s.queue[1..], operation := Idle));
  }

  ghost predicate Completion(e: Event)
  {
    e.RecordOpened? || e.CifOpened? || e.IifOpened? || e.Inserted? || e.Written? || e.Updated?
  }

  lemma CompletionKeeps(s: State, e: Event)
    requires Safe(s) && Enabled(s, e) && Completion(e)
    ensures Safe(Step(s, e)) && Step(s, e).info == s.info
  {
    hide FilesOf, FramesOf, Flatten, Ordered, OpenAfter, Start;
    match e
    case Written => WrittenKeeps(s);
    case IifOpened => IifOpenedKeeps(s);
    case Inserted => RowWrittenKeeps(s, e);
    case Updated => RowWrittenKeeps(s, e);
    case _ =>
  }

  // ---- arrivals

  lemma PlanNonempty(s: State)
    requires Inv(s) && s.alive && WillBeOpen(s)
    ensures s.info.plan != []
  {
    FilesNonempty(RestQueue(s), s.fileOpened, s.current);
  }

  lemma ResponseKeeps(s: State, at: Clock)
    requires Safe(s) && Enabled(s, Response(at)) && !s.info.ending
    ensures Safe(Step(s, Response(at)))
  {
    hide FilesOf, FramesOf, Flatten, Ordered, OpenAfter, Start;
    AddAndStartKeeps(Answered(s), OpenFile(at));
  }

  lemma PlainFrameKeeps(s: State, f: Frame)
    requires Safe(s) && s.alive && !s.info.ending && s.info.responded
    ensures Safe(AddAndStart(s, FramePackage(f)))
    ensures AddAndStart(s, FramePackage(f)).alive
    ensures AddAndStart(s, FramePackage(f)).info.plan == if HasRoom(s) then Planned(s.info.plan, FramePackage(f)) else s.info.plan
    ensures AddAndStart(s, FramePackage(f)).info.accepted == s.info.accepted + if HasRoom(s) then [f] else []
  {
    hide FilesOf, FramesOf, Flatten, Ordered, OpenAfter, Start;
    if HasRoom(s) {
      AddAndStartKeeps(s, FramePackage(f));
      PlanNonempty(s);
    } else {
      StartBusy(s);
    }
  }

  /** Nothing new begins while the head is being worked on. */
  lemma StartBusy(s: State)
    requires Busy(s)
    ensures Start(s) == s
  {
  }

  /** Closing the file and asking for the next. */
  lemma ReopenKeeps(s: State, closeAt: Clock, openAt: Clock)
    requires Inv(s) && s.alive && !s.info.ending && WillBeOpen(s) && |s.queue| + 2 <= MAX_CAPTURE_FRAME_LIST_LEN
    ensures var o := AddAndStart(AddAndStart(s, CloseFile(closeAt)), OpenFile(openAt));
            && Inv(o) && o.alive && WillBeOpen(o) && o.queue != [] && |o.queue| <= |s.queue| + 2
            && o.info == s.info.(plan := s.info.plan + [[]])
  {
    hide FilesOf, FramesOf, Flatten, Ordered, OpenAfter, Start;
    var c := AddAndStart(s, CloseFile(closeAt));
    AddAndStartKeeps(s, CloseFile(closeAt));
    AddAndStartKeeps(c, OpenFile(openAt));
    OpenedBusy(c, OpenFile(openAt));
    assert s.info.accepted + [] == s.info.accepted;
  }

  /** A new file: what is queued, and what the ledger says of it. */
  lemma InciseKeeps(s: State, closeAt: Clock, openAt: Clock)
    requires Safe(s) && s.alive && !s.info.ending && s.info.responded
    requires |s.queue| + 3 <= MAX_CAPTURE_FRAME_LIST_LEN
    ensures var t := Incise(s, closeAt, openAt);
            && Inv(t) && t.alive && WillBeOpen(t) && HasRoom(t)
            && t.info == s.info.(plan := s.info.plan + [HeaderPart(s.info.header)],
                                 accepted := s.info.accepted + HeaderPart(s.info.header))
  {
    hide FilesOf, FramesOf, Flatten, Ordered, OpenAfter, Start, AddAndStart;
    var o := AddAndStart(AddAndStart(s, CloseFile(closeAt)), OpenFile(openAt));
    ReopenKeeps(s, closeAt, openAt);
    if o.info.header.Some? {
      var f := o.info.header.value;
      AddKeeps(o, FramePackage(f));
      assert o.info.plan[..|o.info.plan| - 1] == s.info.plan;
      assert [] + [f] == [f];
    } else {
      assert s.info.accepted + [] == s.info.accepted;
    }
  }

  /** A package that asks for a file stays in the queue until the file is open. */
  lemma OpenedBusy(s: State, p: Package)
    requires Inv(s) && s.alive && HasRoom(s) && p.OpenFile?
    ensures AddAndStart(s, p).queue != []
  {
    if s.queue != [] {
      StartBusy(Add(s, p));
    }
  }

  lemma FileBegun(plan: seq<seq<Frame>>, fs: seq<Frame>, f: Frame)
    ensures Planned(plan + [fs], FramePackage(f)) == plan + [fs + [f]]
  {
    assert (plan + [fs])[..|plan|] == plan;
  }

  /** An I-frame that comes late enough begins a new file, which starts with the stored system header and that frame. */
  lemma IncisionBeginsSegment(s: State, f: Frame, closeAt: Clock, openAt: Clock)
    requires Safe(s) && Enabled(s, FrameIn(f, closeAt, openAt)) && Incises(s, f) && !s.info.ending
    ensures var t := Step(s, FrameIn(f, closeAt, openAt));
            && Safe(t) && t.alive
            && t.info.plan == s.info.plan + [HeaderPart(s.info.header) + [f]]
            && t.info.accepted == s.info.accepted + HeaderPart(s.info.header) + [f]
  {
    hide FilesOf, FramesOf, Flatten, Ordered, OpenAfter, Start;
    InciseKeeps(s, closeAt, openAt);
    var t := Incise(s, closeAt, openAt);
    hide Incise;
    AddAndStartKeeps(t, FramePackage(f));
    FileBegun(s.info.plan, HeaderPart(s.info.header), f);
  }

  lemma FrameKeeps(s: State, f: Frame, closeAt: Clock, openAt: Clock)
    requires Safe(s) && Enabled(s, FrameIn(f, closeAt, openAt)) && !s.info.ending
    ensures Safe(Step(s, FrameIn(f, closeAt, openAt)))
  {
    hide FilesOf, FramesOf, Flatten, Ordered, OpenAfter, Start;
    if Incises(s, f) {
      IncisionBeginsSegment(s, f, closeAt, openAt);
    } else {
      PlainFrameKeeps(KeepHeader(s, f), f);
    }
  }

  // ---- the end

  lemma EndQueued(s: State, endAt: Clock)
    requires Inv(s) && s.alive && !s.info.ending && HasRoom(s)
    ensures Safe(AddAndStart(s, CloseSession(endAt)))
    ensures AddAndStart(s, CloseSession(endAt)).info.plan == s.info.plan
  {
    hide FilesOf, FramesOf, Flatten, Ordered, OpenAfter, Start;
    AddAndStartKeeps(s, CloseSession(endAt));
  }

  lemma StreamClosedKeeps(s: State, closeAt: Clock, endAt: Clock)
    requires Safe(s) && Enabled(s, StreamClosed(closeAt, endAt))
    ensures Safe(Step(s, StreamClosed(closeAt, endAt)))
    ensures Step(s, StreamClosed(closeAt, endAt)).info.plan == s.info.plan
  {
    hide FilesOf, FramesOf, Flatten, Ordered, OpenAfter, Start, AddAndStart;
    if s.fileOpened {
      AddAndStartKeeps(s, CloseFile(closeAt));
      EndQueued(AddAndStart(s, CloseFile(closeAt)), endAt);
    } else {
      EndQueued(s, endAt);
    }
  }

  // ---- any step, any run

  /** No data comes once the stream is being closed. */
  ghost predicate Quiet(s: State)
  {
    (s.info.closing ==> !s.info.reading && !s.info.connected) && (s.alive && s.info.ending ==> s.info.closing)
  }

  ghost predicate SameLink(i: Info, j: Info)
  {
    j.closing == i.closing && j.reading == i.reading && j.connected == i.connected && j.ending == i.ending && j.job == i.job
  }

  lemma AddKeepsLink(s: State, p: Package)
    requires !p.CloseSession?
    ensures SameLink(s.info, Add(s, p).info) && SameLink(s.info, AddAndStart(s, p).info)
  {
    hide Start;
  }

  lemma FrameKeepsLink(s: State, f: Frame, closeAt: Clock, openAt: Clock)
    ensures SameLink(s.info, OnFrame(s, f, closeAt, openAt).info)
  {
    hide Start, Add, AddAndStart;
    var k := KeepHeader(s, f);
    if Incises(k, f) {
      AddKeepsLink(k, CloseFile(closeAt));
      var c := AddAndStart(k, CloseFile(closeAt));
      AddKeepsLink(c, OpenFile(openAt));
      var o := AddAndStart(c, OpenFile(openAt));
      if o.info.header.Some? {
        AddKeepsLink(o, FramePackage(o.info.header.value));
      }
      AddKeepsLink(Incise(k, closeAt, openAt), FramePackage(f));
    } else {
      AddKeepsLink(k, FramePackage(f));
    }
  }

  lemma QuietKept(s: State, e: Event)
    requires Quiet(s) && Enabled(s, e)
    ensures Quiet(Step(s, e))
  {
    hide Start, OnFrame;
    if e.FrameIn? {
      FrameKeepsLink(s, e.frame, e.closeAt, e.openAt);
    }
  }

  lemma StepKeeps(s: State, e: Event)
    requires Safe(s) && Quiet(s) && Enabled(s, e)
    ensures Safe(Step(s, e)) && Quiet(Step(s, e))
  {
    QuietKept(s, e);
    hide FilesOf, FramesOf, Flatten, Ordered, OpenAfter, Start, OnFrame, OnStreamClosed;
    match e
    case Response(at) => ResponseKeeps(s, at);
    case FrameIn(f, closeAt, openAt) => FrameKeeps(s, f, closeAt, openAt);
    case StreamClosed(closeAt, endAt) => StreamClosedKeeps(s, closeAt, endAt);
    case Stop =>
    case _ => CompletionKeeps(s, e);
  }

  /** What do_preview_frame relies on, and what it does. */
  lemma FrameStep(s: State, f: Frame, closeAt: Clock, openAt: Clock)
    requires Safe(s) && Quiet(s) && Enabled(s, FrameIn(f, closeAt, openAt))
    ensures var k := KeepHeader(s, f);
            && Safe(k) && k.alive && !k.info.ending && k.info.responded
            && (Incises(k, f) ==> |k.queue| + 3 <= MAX_CAPTURE_FRAME_LIST_LEN)
            && Step(s, FrameIn(f, closeAt, openAt))
               == AddAndStart(if Incises(k, f) then Incise(k, closeAt, openAt) else k, FramePackage(f))
    ensures Safe(Step(s, FrameIn(f, closeAt, openAt))) && Quiet(Step(s, FrameIn(f, closeAt, openAt)))
  {
    hide Incise, AddAndStart;
    StepKeeps(s, FrameIn(f, closeAt, openAt));
  }

  /** What the write callback relies on, and what it does. */
  lemma WrittenStep(s: State)
    requires Safe(s) && Quiet(s) && Enabled(s, Written)
    ensures s.fileOpened && s.queue != [] && s.queue[0].FramePackage?
    ensures |RecordBytes(s.current)| + |s.queue[0].frame.data| < INT32_LIMIT
    ensures var t := s.(current := s.current + [s.queue[0].frame], queue := s.queue[1..], operation := Idle);
            Ready(t) && Step(s, Written) == Start(t)
    ensures Safe(Step(s, Written)) && Quiet(Step(s, Written))
  {
    hide Start, FilesOf, FramesOf, Flatten, Ordered, OpenAfter;
    HeadDone(s, s.(current := s.current + [s.queue[0].frame], queue := s.queue[1..], operation := Idle));
    StepKeeps(s, Written);
  }

  /** What the last open callback relies on, and what it does. */
  lemma IifStep(s: State)
    requires Safe(s) && Quiet(s) && Enabled(s, IifOpened)
    ensures s.queue != [] && s.current == [] && !s.fileOpened && s.operation != Idle
    ensures var o := s.(fileOpened := true);
            var t := o.(queue := s.queue[1..], operation := Idle);
            Ready(t) && Step(s, IifOpened) == if s.info.job then o.(operation := Inserting) else Start(t)
    ensures Safe(Step(s, IifOpened)) && Quiet(Step(s, IifOpened))
  {
    hide Start;
    IifOpenedReady(s);
    StepKeeps(s, IifOpened);
  }

  lemma {:induction false} RunKeeps(s: State, es: seq<Event>)
    requires Safe(s) && Quiet(s) && CanRun(s, es)
    ensures Safe(Run(s, es)) && Quiet(Run(s, es))
    decreases |es|
  {
    if es != [] {
      StepKeeps(s, es[0]);
      RunKeeps(Step(s, es[0]), es[1..]);
    }
  }

  lemma InitialSafe(job: bool, now: Clock)
    ensures Safe(Initial(job, now)) && Quiet(Initial(job, now))
  {
  }

  lemma SafeMeans(s: State)
    requires Safe(s)
    ensures s.queue == [] <==> s.operation == Idle
    ensures s.info.accepted == Flatten(s.files) + s.current + FramesOf(s.queue)
    ensures s.operation == Writing ==> s.fileOpened
    ensures !s.fileOpened ==> s.current == []
  {
    hide FilesOf, FramesOf, Flatten, Ordered, OpenAfter;
    if s.queue != [] {
      FramesOfHead(s.queue);
    } else {
      NoFrames();
    }
  }

  lemma NoFrames()
    ensures FramesOf([]) == []
  {
  }

  /** At every point of every run: a waiting queue has one outstanding operation, on its head; the frames in closed
      files, in the open file and in the queue are the accepted ones, in order; frames are written to open files only. */
  lemma RunSafety(job: bool, now: Clock, es: seq<Event>)
    requires CanRun(Initial(job, now), es)
    ensures var s := Run(Initial(job, now), es);
            && (s.queue == [] <==> s.operation == Idle)
            && (s.alive ==> Busy(s))
            && s.info.accepted == Flatten(s.files) + s.current + FramesOf(s.queue)
            && (s.operation == Writing ==> s.fileOpened)
            && (!s.fileOpened ==> s.current == [])
  {
    hide FilesOf, FramesOf, Flatten, Ordered, OpenAfter, CanRun, Run;
    InitialSafe(job, now);
    RunKeeps(Initial(job, now), es);
    SafeMeans(Run(Initial(job, now), es));
  }

  /** When a session is gone, wherever the stop came, each file that was asked for has been closed once and holds its
      frames, and together they hold every accepted frame. */
  lemma RunEnd(job: bool, now: Clock, es: seq<Event>)
    requires CanRun(Initial(job, now), es)
    ensures var s := Run(Initial(job, now), es);
            !s.alive ==> s.files == s.info.plan && s.info.accepted == Flatten(s.files) && !s.fileOpened
  {
    InitialSafe(job, now);
    RunKeeps(Initial(job, now), es);
  }

  lemma {:induction false} RunAppend(s: State, a: seq<Event>, b: seq<Event>)
    requires CanRun(s, a + b)
    ensures CanRun(s, a) && CanRun(Run(s, a), b) && Run(s, a + b) == Run(Run(s, a), b)
    decreases |a|
  {
    hide Enabled, Step;
    if a == [] {
      assert a + b == b;
    } else {
      assert (a + b)[1..] == a[1..] + b;
      RunAppend(Step(s, a[0]), a[1..], b);
    }
  }

  lemma {:induction false} RunJoin(s: State, a: seq<Event>, b: seq<Event>)
    requires CanRun(s, a) && CanRun(Run(s, a), b)
    ensures CanRun(s, a + b) && Run(s, a + b) == Run(Run(s, a), b)
    decreases |a|
  {
    hide Enabled, Step;
    if a == [] {
      assert a + b == b;
    } else {
      assert (a + b)[1..] == a[1..] + b;
      RunJoin(Step(s, a[0]), a[1..], b);
    }
  }

  // ---- the end is reached

  /** The callback that the outstanding operation will make. */
  ghost function Callback(o: Operation): Event
    requires o != Idle
  {
    match o
    case OpeningRecord => RecordOpened
    case OpeningCif => CifOpened
    case OpeningIif => IifOpened
    case Inserting => Inserted
    case Writing => Written
    case Updating => Updated
  }

  /** The callbacks still to come are fewer than this. */
  ghost function Work(s: State): nat
  {
    var stage := match s.operation case OpeningCif => 1 case OpeningIif => 2 case Inserting => 3 case _ => 0;
    if s.queue == [] then 0 else 4 * |s.queue| - stage
  }

  /** Each file that is still to be closed will fit. */
  ghost predicate FilesFit(s: State)
  {
    forall k :: |s.files| <= k < |s.info.plan| ==> FileFits(s.info.plan[k])
  }

  /** The open file goes on with what is in it. */
  lemma {:induction false} FirstFile(q: seq<Package>, cur: seq<Frame>)
    requires Ordered(q, true)
    ensures FilesOf(q, true, cur) != [] && cur <= FilesOf(q, true, cur)[0]
  {
    if q != [] {
      FirstFile(q[..|q| - 1], cur);
    }
  }

  lemma {:induction false} PrefixFits(a: seq<Frame>, b: seq<Frame>)
    requires a <= b
    ensures |RecordBytes(a)| <= |RecordBytes(b)|
    decreases |b|
  {
    if |a| < |b| {
      PrefixFits(a, b[..|b| - 1]);
    } else {
      assert a == b;
    }
  }

  lemma HeadFits(s: State)
    requires Safe(s) && s.alive && s.queue != [] && s.queue[0].FramePackage? && s.fileOpened && FilesFit(s)
    ensures |RecordBytes(s.current)| + |s.queue[0].frame.data| < INT32_LIMIT
    ensures CIF_SIZE * (|s.current| + 1) < INT32_LIMIT
  {
    var f, now := s.queue[0].frame, s.current + [s.queue[0].frame];
    FilesHead(s.queue, true, s.current);
    OrderedHead(s.queue, true);
    FirstFile(s.queue[1..], now);
    var file := s.info.plan[|s.files|];
    assert now <= file && FileFits(file);
    hide FilesOf, FramesOf, Ordered;
    PrefixFits(now, file);
    assert now[..|now| - 1] == s.current;
  }

  /** One callback brings the end closer. */
  lemma CallbackProgress(s: State)
    requires Safe(s) && Quiet(s) && s.alive && s.info.ending && FilesFit(s)
    ensures s.operation != Idle && Enabled(s, Callback(s.operation))
    ensures Completion(Callback(s.operation)) && forall e :: Completion(e) && Enabled(s, e) ==> e == Callback(s.operation)
    ensures FilesFit(Step(s, Callback(s.operation)))
    ensures Work(Step(s, Callback(s.operation))) < Work(s)
    ensures Step(s, Callback(s.operation)).info == s.info
  {
    hide FilesOf, FramesOf, Flatten, Ordered, OpenAfter, Start, FilesFit;
    OneCallback(s);
    hide Completion, Enabled;
    CompletionKeeps(s, Callback(s.operation));
    CallbackFits(s);
    WorkDone(s);
  }

  lemma OneCallback(s: State)
    requires Safe(s) && s.alive && s.info.ending && FilesFit(s)
    ensures s.operation != Idle && Enabled(s, Callback(s.operation))
    ensures Completion(Callback(s.operation)) && forall e :: Completion(e) && Enabled(s, e) ==> e == Callback(s.operation)
  {
    if s.operation == Writing {
      HeadFits(s);
    }
    hide FilesOf, FramesOf, Flatten, Ordered, OpenAfter, Start;
  }

  /** No file is reopened, so those still to be closed are fewer. */
  lemma CallbackFits(s: State)
    requires FilesFit(s) && s.alive && s.operation != Idle && Enabled(s, Callback(s.operation))
    ensures FilesFit(Step(s, Callback(s.operation)))
  {
    hide FileFits;
  }

  lemma WorkDone(s: State)
    requires Safe(s) && s.alive && s.operation != Idle && Enabled(s, Callback(s.operation))
    ensures Work(Step(s, Callback(s.operation))) < Work(s)
  {
    hide FilesOf, FramesOf, Flatten, Ordered, OpenAfter, Start;
  }

  /** Once the stream is closed, the outstanding callbacks end the session: at most four for each queued package. */
  lemma {:induction false} SessionEnds(s: State) returns (es: seq<Event>)
    requires Safe(s) && Quiet(s) && s.alive && s.info.ending && FilesFit(s)
    ensures CanRun(s, es) && !Run(s, es).alive && Run(s, es).info == s.info
    ensures |es| <= Work(s) <= 4 * |s.queue|
    ensures forall e <- es :: Completion(e)
    decreases Work(s)
  {
    hide FilesOf, FramesOf, Flatten, Ordered, OpenAfter, Start;
    CallbackProgress(s);
    var e := Callback(s.operation);
    var t := Step(s, e);
    StepKeeps(s, e);
    if t.alive {
      var rest := SessionEnds(t);
      es := [e] + rest;
      assert es[1..] == rest;
    } else {
      es := [e];
    }
  }

  /** So every run that has come to the end of its stream goes on to the end of its session, if the files of the plan that are
      not closed yet stay below 2 GiB, and then they are all there. */
  lemma EveryRunEnds(job: bool, now: Clock, es: seq<Event>) returns (more: seq<Event>)
    requires CanRun(Initial(job, now), es)
    requires var s := Run(Initial(job, now), es);
             && s.alive && s.info.ending
             && forall k :: |s.files| <= k < |s.info.plan| ==>
                  |RecordBytes(s.info.plan[k])| < 0x8000_0000 && 20 * |s.info.plan[k]| < 0x8000_0000
    ensures CanRun(Initial(job, now), es + more)
    ensures var s, t := Run(Initial(job, now), es), Run(Initial(job, now), es + more);
            && |more| <= 4 * |s.queue| && (forall e <- more :: Completion(e))
            && !t.alive && !t.fileOpened && t.files == s.info.plan && Flatten(t.files) == s.info.accepted
  {
    InitialSafe(job, now);
    RunKeeps(Initial(job, now), es);
    hide Run, CanRun, Safe, Quiet, Initial, Completion, RecordBytes, Work;
    more := SessionEnds(Run(Initial(job, now), es));
    RunJoin(Initial(job, now), es, more);
    RunEnd(job, now, es + more);
  }

  // ---- a full queue

  /** Whether the closing of the stream leads to the end: exactly if there is room for it in the queue. */
  lemma EndQueuedIff(s: State, closeAt: Clock, endAt: Clock)
    requires Safe(s) && s.alive && s.info.closing && !s.info.ending
    ensures var t := OnStreamClosed(s, closeAt, endAt);
            && (t.info.ending <==> if s.fileOpened then |s.queue| < 500 else |s.queue| <= 500)
            && (t.info.ending <==> RoomForEnd(s))
            && (!RoomForEnd(s) ==> Inv(t) && t.alive && SameLink(s.info, t.info))
  {
    hide FilesOf, FramesOf, Flatten, Ordered, OpenAfter, Start, AddAndStart;
    var c := s;
    if s.fileOpened {
      c := AddAndStart(s, CloseFile(closeAt));
      CloseQueued(s, closeAt);
      AddKeepsLink(s, CloseFile(closeAt));
    }
    if HasRoom(c) {
      AddAndStartKeeps(c, CloseSession(endAt));
    } else {
      RefusedPackage(c, CloseSession(endAt));
    }
  }

  lemma CloseQueued(s: State, closeAt: Clock)
    requires Safe(s) && s.alive && !s.info.ending && s.fileOpened
    ensures var c := AddAndStart(s, CloseFile(closeAt));
            && Inv(c) && c.alive && !c.info.ending && (HasRoom(c) <==> |s.queue| < MAX_CAPTURE_FRAME_LIST_LEN)
  {
    hide FilesOf, FramesOf, Flatten, Ordered, OpenAfter, Start;
    var p := CloseFile(closeAt);
    if HasRoom(s) {
      AddAndStartKeeps(s, p);
      if s.queue != [] {
        StartBusy(Add(s, p));
      }
    } else {
      RefusedPackage(s, p);
    }
  }

  lemma RefusedPackage(s: State, p: Package)
    requires Inv(s) && s.alive && !HasRoom(s)
    ensures AddAndStart(s, p) == s
  {
    StartBusy(s);
  }

  lemma StaysStep(s: State, e: Event)
    requires Inv(s) && Quiet(s) && s.alive && s.info.closing && !s.info.ending && Enabled(s, e) && !e.StreamClosed?
    ensures var t := Step(s, e); Inv(t) && Quiet(t) && t.alive && t.info.closing && !t.info.ending
  {
    QuietKept(s, e);
    hide FilesOf, FramesOf, Flatten, Ordered, OpenAfter, Start;
    match e
    case Written => WrittenKeeps(s);
    case IifOpened => IifOpenedKeeps(s);
    case Inserted => RowWrittenKeeps(s, e);
    case Updated => RowWrittenKeeps(s, e);
    case _ =>
  }

  /** A session whose end found the queue full works the queue off and stays, whatever comes. */
  lemma {:induction false} NeverEnds(s: State, es: seq<Event>)
    requires Inv(s) && Quiet(s) && s.alive && s.info.closing && !s.info.ending
    requires CanRun(s, es) && forall e <- es :: !e.StreamClosed?
    ensures Run(s, es).alive && !Run(s, es).info.ending
    decreases |es|
  {
    hide Inv, Quiet, Enabled, Step;
    if es != [] {
      assert es[0] in es && forall x <- es[1..] :: x in es;
      StaysStep(s, es[0]);
      NeverEnds(Step(s, es[0]), es[1..]);
    }
  }

  /** So a stream that is closed over a full queue leaves its session for ever. */
  lemma FullQueueStays(s: State, closeAt: Clock, endAt: Clock, es: seq<Event>)
    requires Safe(s) && Quiet(s) && s.alive && s.info.closing && !s.info.ending && !RoomForEnd(s)
    requires CanRun(OnStreamClosed(s, closeAt, endAt), es) && forall e <- es :: !e.StreamClosed?
    ensures Run(OnStreamClosed(s, closeAt, endAt), es).alive
  {
    hide OnStreamClosed, Inv, RoomForEnd;
    EndQueuedIff(s, closeAt, endAt);
    NeverEnds(OnStreamClosed(s, closeAt, endAt), es);
  }
}
