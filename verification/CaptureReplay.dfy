/** Every file that a recording session leaves behind can be replayed. */
module CaptureReplay {
  import opened RecordIndex
  import opened CaptureSpec
  import opened CaptureSafety
  import opened CaptureRuns
  import Capture
  import R = RecordReplay
  import G = FrameGetter

  // ---- files stay small

  ghost predicate AllSmall(s: State)
  {
    FileFits(s.current) && (forall k :: 0 <= k < |s.files| ==> FileFits(s.files[k]))
  }

  lemma {:induction false} StartSmall(s: State)
    requires AllSmall(s)
    ensures AllSmall(Start(s))
    decreases |s.queue|
  {
    hide FileFits;
    SmallEmpty();
    if s.queue != [] && s.operation == Idle && s.queue[0].CloseFile? && !s.info.job {
      StartSmall(CloseFiles(s).(queue := s.queue[1..]));
    }
  }

  lemma SmallEmpty()
    ensures FileFits([])
  {
  }

  lemma AddSmall(s: State, p: Package)
    requires AllSmall(s)
    ensures AllSmall(Add(s, p)) && AllSmall(AddAndStart(s, p))
  {
    hide FileFits, Start;
    StartSmall(Add(s, p));
  }

  lemma FrameSmall(s: State, f: Frame, closeAt: Clock, openAt: Clock)
    requires AllSmall(s)
    ensures AllSmall(OnFrame(s, f, closeAt, openAt))
  {
    hide FileFits, Add, AddAndStart;
    var k := KeepHeader(s, f);
    if Incises(k, f) {
      AddSmall(k, CloseFile(closeAt));
      var c := AddAndStart(k, CloseFile(closeAt));
      AddSmall(c, OpenFile(openAt));
      var o := AddAndStart(c, OpenFile(openAt));
      if o.info.header.Some? {
        AddSmall(o, FramePackage(o.info.header.value));
      }
      AddSmall(Incise(k, closeAt, openAt), FramePackage(f));
    } else {
      AddSmall(k, FramePackage(f));
    }
  }

  lemma WrittenSmall(s: State)
    requires AllSmall(s) && Enabled(s, Written)
    ensures AllSmall(Step(s, Written))
  {
    hide Start;
    var w := s.(current := s.current + [s.queue[0].frame]);
    assert w.current[..|s.current|] == s.current;
    StartSmall(w.(queue := s.queue[1..], operation := Idle));
  }

  lemma StepSmall(s: State, e: Event)
    requires AllSmall(s) && Enabled(s, e)
    ensures AllSmall(Step(s, e))
  {
    hide FileFits, Start, Add, AddAndStart, OnFrame;
    match e
    case Response(at) => AddSmall(Answered(s), OpenFile(at));
    case FrameIn(f, closeAt, openAt) => FrameSmall(s, f, closeAt, openAt);
    case Written => WrittenSmall(s);
    case IifOpened => StartSmall(s.(fileOpened := true, queue := if s.queue == [] then [] else s.queue[1..], operation := Idle));
    case Inserted => StartSmall(s.(queue := if s.queue == [] then [] else s.queue[1..], operation := Idle));
    case Updated => StartSmall(s.(queue := if s.queue == [] then [] else s.queue[1..], operation := Idle));
    case StreamClosed(closeAt, endAt) =>
      AddSmall(s, CloseFile(closeAt));
      AddSmall(if s.fileOpened then AddAndStart(s, CloseFile(closeAt)) else s, CloseSession(endAt));
    case _ =>
  }

  // ---- frames stay storable

  ghost predicate Good(f: Frame)
  {
    Storable(f) && f.at.sv.year != 0
  }

  ghost predicate AllGood(i: Info)
  {
    (forall f <- i.accepted :: Good(f)) && (i.header.Some? ==> Good(i.header.value))
  }

  lemma FrameGood(s: State, f: Frame, closeAt: Clock, openAt: Clock)
    requires Safe(s) && Quiet(s) && Enabled(s, FrameIn(f, closeAt, openAt)) && AllGood(s.info) && Good(f)
    ensures AllGood(Step(s, FrameIn(f, closeAt, openAt)).info)
  {
    hide Start, FilesOf, FramesOf, Flatten, Ordered, OpenAfter, Good;
    if Incises(s, f) {
      IncisionBeginsSegment(s, f, closeAt, openAt);
      InciseKeeps(KeepHeader(s, f), closeAt, openAt);
    } else {
      PlainFrameKeeps(KeepHeader(s, f), f);
    }
  }

  lemma StepGood(s: State, e: Event)
    requires Safe(s) && Quiet(s) && Enabled(s, e) && AllGood(s.info)
    requires e.FrameIn? ==> Good(e.frame)
    ensures AllGood(Step(s, e).info)
  {
    hide Start, FilesOf, FramesOf, Flatten, Ordered, OpenAfter, Good;
    match e
    case Response(at) =>
    case FrameIn(f, closeAt, openAt) =>
      FrameGood(s, f, closeAt, openAt);
    case StreamClosed(closeAt, endAt) =>
    case Stop =>
    case _ => CompletionKeeps(s, e);
  }

  // ---- over whole runs

  ghost predicate GoodEvents(es: seq<Event>)
  {
    forall e <- es :: e.FrameIn? ==> Good(e.frame)
  }

  lemma {:induction false} RunGood(s: State, es: seq<Event>)
    requires Safe(s) && Quiet(s) && CanRun(s, es) && AllSmall(s) && AllGood(s.info) && GoodEvents(es)
    ensures AllSmall(Run(s, es)) && AllGood(Run(s, es).info)
    decreases |es|
  {
    hide Safe, Quiet, Enabled, Step, AllSmall, AllGood, Good;
    if es != [] {
      StepKeeps(s, es[0]);
      StepSmall(s, es[0]);
      StepGood(s, es[0]);
      RunGood(Step(s, es[0]), es[1..]);
    }
  }

  lemma {:induction false} FlattenHolds(fss: seq<seq<Frame>>, k: nat, f: Frame)
    requires k < |fss| && f in fss[k]
    ensures f in Flatten(fss)
  {
    var n := |fss| - 1;
    if k < n {
      FlattenHolds(fss[..n], k, f);
    }
  }

  /** Whatever the run, each file it has closed is one that the reader can take. */
  lemma ClosedFilesRecordable(job: bool, now: Clock, es: seq<Event>, k: nat)
    requires CanRun(Initial(job, now), es) && GoodEvents(es)
    requires k < |Run(Initial(job, now), es).files|
    ensures R.Recordable(Run(Initial(job, now), es).files[k])
  {
    var s := Run(Initial(job, now), es);
    InitialSafe(job, now);
    SmallEmpty();
    RunGood(Initial(job, now), es);
    RunSafety(job, now, es);
    hide Run, CanRun, FramesOf;
    var fs := s.files[k];
    forall i | 0 <= i < |fs|
      ensures Good(fs[i])
    {
      FlattenHolds(s.files, k, fs[i]);
      assert fs[i] in s.info.accepted;
    }
  }

  /** A life of a session, then a replay of one of its files: the frames come back in order, from the file's first one,
      up to the first that holds no bytes. */
  method RecordThenReplay(job: bool, now: Clock, es: seq<Event>, k: nat, diff: (Time, Time) -> int)
    returns (count: nat, shown: seq<G.VideoFrame>)
    requires CanRun(Initial(job, now), es)
    requires forall e <- es :: e.FrameIn? ==>
               && 1 <= e.frame.at.sv.year < 0x1_0000 && e.frame.at.sv.month < 0x100 && e.frame.at.sv.day < 0x100
               && e.frame.at.sv.milliSeconds < 0x1_0000_0000
               && -0x8000_0000 <= e.frame.kind < 0x8000_0000 && |e.frame.data| < 0x8000_0000
    ensures count == |Run(Initial(job, now), es).files|
    ensures k < count ==>
              var fs := Run(Initial(job, now), es).files[k];
              && |shown| == R.BeforeEmpty(fs)
              && (forall i :: 0 <= i < |shown| ==>
                    shown[i] == G.VideoFrame(fs[i].data, fs[i].kind, diff(fs[i].at.sv, fs[0].at.sv)) && fs[i].data != [])
              && (|shown| < |fs| ==> fs[|shown|].data == [])
  {
    assert GoodEvents(es);
    hide CanRun, Run, Initial, Layout, GoodEvents;
    var files, gone := Capture.Live(job, now, es);
    count, shown := |files|, [];
    if k < |files| {
      ClosedFilesRecordable(job, now, es, k);
      hide R.Recordable;
      shown := R.ReplayAll(files[k], Run(Initial(job, now), es).files[k], diff);
    }
  }
}
