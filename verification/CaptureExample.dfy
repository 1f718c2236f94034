/** A session that writes two files, from its first event to its last. */
module CaptureExample {
  import opened RecordIndex
  import opened CaptureSpec
  import opened Options
  import opened CaptureRuns

  /** A session without a job that has nothing to do: its file is open and its queue is empty. */
  function Waiting(start: Clock, header: Option<Frame>, current: seq<Frame>, files: seq<seq<Frame>>, accepted: seq<Frame>,
                   plan: seq<seq<Frame>>): State
  {
    State(true, true, [], start, Idle, current, files,
          Info(false, true, true, false, header, true, false, accepted, plan))
  }

  predicate Small(fs: seq<Frame>)
  {
    |fs| <= 1000 && forall f <- fs :: Storable(f) && |f.data| <= 1000000
  }

  lemma {:induction false} SmallBytes(fs: seq<Frame>)
    requires forall f <- fs :: |f.data| <= 1000000
    ensures |RecordBytes(fs)| <= 1000000 * |fs|
  {
    if fs != [] {
      SmallBytes(fs[..|fs| - 1]);
    }
  }

  lemma RunOne(s: State, e: Event)
    requires Enabled(s, e)
    ensures CanRun(s, [e]) && Run(s, [e]) == Step(s, e)
  {
    hide Enabled, Step;
    assert [e][1..] == [];
  }

  /** The callbacks that open a file. */
  lemma Opened(s: State)
    requires s.alive && s.operation == OpeningRecord && !s.info.job
    ensures CanRun(s, [RecordOpened, CifOpened, IifOpened])
    ensures Run(s, [RecordOpened, CifOpened, IifOpened]) == Next(s.(fileOpened := true, operation := OpeningIif))
  {
    hide Next;
    var s1 := Step(s, RecordOpened);
    var s2 := Step(s1, CifOpened);
    RunOne(s2, IifOpened);
    RunOne(s1, CifOpened);
    RunOne(s, RecordOpened);
    RunJoin(s, [RecordOpened], [CifOpened]);
    assert [RecordOpened] + [CifOpened] == [RecordOpened, CifOpened];
    RunJoin(s, [RecordOpened, CifOpened], [IifOpened]);
    assert [RecordOpened, CifOpened] + [IifOpened] == [RecordOpened, CifOpened, IifOpened];
  }

  lemma FirstFile(now: Clock, at: Clock)
    ensures var s, es := Initial(false, now), [Response(at)] + [RecordOpened, CifOpened, IifOpened];
            CanRun(s, es) && Run(s, es) == Waiting(at, None, [], [], [], [[]])
  {
    hide Run, CanRun;
    var s := Initial(false, now);
    RunOne(s, Response(at));
    assert [] + [OpenFile(at)] == [OpenFile(at)];
    Opened(Step(s, Response(at)));
    RunJoin(s, [Response(at)], [RecordOpened, CifOpened, IifOpened]);
    assert [OpenFile(at)][1..] == [];
  }

  /** The write of the only frame that waits. */
  lemma LastWritten(s: State, f: Frame)
    requires s.alive && s.operation == Writing && s.queue == [FramePackage(f)] && Small(s.current + [f])
    ensures Enabled(s, Written)
    ensures Step(s, Written) == s.(current := s.current + [f], operation := Idle, queue := [])
  {
    SmallBytes(s.current);
    assert s.queue[1..] == [];
    assert f in s.current + [f] && forall g <- s.current :: g in s.current + [f];
  }

  /** A frame for which no new file is due. */
  lemma PlainFrame(start: Clock, h: Option<Frame>, cur: seq<Frame>, files: seq<seq<Frame>>, accepted: seq<Frame>,
                   plan: seq<seq<Frame>>, f: Frame, at: Clock)
    requires plan != [] && Small(cur + [f])
    requires f.kind == 1 ==> 0 <= f.at.ms - start.ms < 1200000
    ensures var s, es := Waiting(start, h, cur, files, accepted, plan), [FrameIn(f, at, at)] + [Written];
            && CanRun(s, es)
            && Run(s, es) == Waiting(start, if f.kind == 0x80 then Some(f) else h, cur + [f], files, accepted + [f],
                                     plan[..|plan| - 1] + [plan[|plan| - 1] + [f]])
  {
    hide Run, CanRun, Small;
    var s := Waiting(start, h, cur, files, accepted, plan);
    StorableLast(cur, f);
    RunOne(s, FrameIn(f, at, at));
    assert [] + [FramePackage(f)] == [FramePackage(f)];
    var t := Step(s, FrameIn(f, at, at));
    LastWritten(t, f);
    RunOne(t, Written);
    RunJoin(s, [FrameIn(f, at, at)], [Written]);
  }

  lemma StorableLast(cur: seq<Frame>, f: Frame)
    requires Small(cur + [f])
    ensures Storable(f)
  {
    assert f in cur + [f];
  }

  /** An I-frame for which a new file is due: the system header is written to it first. */
  lemma NextFile(start: Clock, h: Frame, cur: seq<Frame>, files: seq<seq<Frame>>, accepted: seq<Frame>, plan: seq<seq<Frame>>,
                 f: Frame, at: Clock)
    requires Small([h, f]) && f.kind == 1 && 1200000 <= f.at.ms - start.ms < 0x1_0000_0000
    ensures var s := Waiting(start, Some(h), cur, files, accepted, plan);
            var es := [FrameIn(f, at, at)] + [RecordOpened, CifOpened, IifOpened] + [Written] + [Written];
            && CanRun(s, es)
            && Run(s, es) == Waiting(at, Some(h), [h, f], files + [cur], accepted + [h] + [f], plan + [[h, f]])
  {
    hide Run, CanRun, Small;
    var s := Waiting(start, Some(h), cur, files, accepted, plan);
    assert [h] + [f] == [h, f];
    StorableLast([h], f);
    DueFrame(start, h, cur, files, accepted, plan, f, at);
    RunOne(s, FrameIn(f, at, at));
    var s1 := Step(s, FrameIn(f, at, at));
    Opened(s1);
    RunJoin(s, [FrameIn(f, at, at)], [RecordOpened, CifOpened, IifOpened]);
    var s2 := Next(s1.(fileOpened := true, operation := OpeningIif));
    assert s1.queue[1..] == [FramePackage(h), FramePackage(f)];
    FirstWritten(s2, h, f);
    RunOne(s2, Written);
    var s3 := Step(s2, Written);
    LastWritten(s3, f);
    RunOne(s3, Written);
    RunJoin(s, [FrameIn(f, at, at)] + [RecordOpened, CifOpened, IifOpened], [Written]);
    RunJoin(s, [FrameIn(f, at, at)] + [RecordOpened, CifOpened, IifOpened] + [Written], [Written]);
  }

  lemma ClosedNow(s: State, at: Clock)
    requires s.queue == [] && s.operation == Idle && !s.info.job
    ensures AddAndStart(s, CloseFile(at)) == CloseFiles(s)
  {
    var p := Add(s, CloseFile(at));
    assert s.info.accepted + [] == s.info.accepted;
    assert p == s.(queue := [CloseFile(at)]);
    var c := CloseFiles(p);
    assert c.queue[1..] == [];
    assert Start(p) == Start(c.(queue := c.queue[1..]));
  }

  /** The file is closed at once, and the new one is being opened. */
  lemma DueFrame(start: Clock, h: Frame, cur: seq<Frame>, files: seq<seq<Frame>>, accepted: seq<Frame>, plan: seq<seq<Frame>>,
                 f: Frame, at: Clock)
    requires Storable(f) && f.kind == 1 && 1200000 <= f.at.ms - start.ms < 0x1_0000_0000
    ensures var s := Waiting(start, Some(h), cur, files, accepted, plan);
            && Enabled(s, FrameIn(f, at, at))
            && Step(s, FrameIn(f, at, at)) ==
               State(true, false, [OpenFile(at), FramePackage(h), FramePackage(f)], at, OpeningRecord, [], files + [cur],
                     Info(false, true, true, false, Some(h), true, false, accepted + [h] + [f], plan + [[h, f]]))
  {
    var s := Waiting(start, Some(h), cur, files, accepted, plan);
    var c := AddAndStart(s, CloseFile(at));
    ClosedNow(s, at);
    assert c == s.(fileOpened := false, files := files + [cur], current := []);
    var o := AddAndStart(c, OpenFile(at));
    assert [OpenFile(at)] == [] + [OpenFile(at)];
    assert o == c.(queue := [OpenFile(at)], operation := OpeningRecord, startTime := at, info := c.info.(plan := plan + [[]]));
    var p := Add(o, FramePackage(h));
    assert (plan + [[]])[..|plan|] == plan && [] + [h] == [h] && [h] + [f] == [h, f];
    assert (plan + [[h]])[..|plan|] == plan;
    assert p.info.plan == plan + [[h]];
    assert [OpenFile(at)] + [FramePackage(h)] + [FramePackage(f)] == [OpenFile(at), FramePackage(h), FramePackage(f)];
  }

  /** The write of the first of two frames. */
  lemma FirstWritten(s: State, h: Frame, f: Frame)
    requires s.alive && s.operation == Writing && s.queue == [FramePackage(h), FramePackage(f)] && s.current == []
    requires Small([h, f])
    ensures Enabled(s, Written)
    ensures Step(s, Written) == s.(current := [h], queue := [FramePackage(f)])
  {
    assert h in [h, f] && s.queue[1..] == [FramePackage(f)] && [] + [h] == [h];
  }

  lemma Ends(s: State, at: Clock)
    requires s.alive && s.fileOpened && s.queue == [] && s.operation == Idle
    requires !s.info.job && s.info.connected && !s.info.ending
    ensures CanRun(s, [Stop] + [StreamClosed(at, at)])
    ensures var t := Run(s, [Stop] + [StreamClosed(at, at)]); !t.alive && t.files == s.files + [s.current]
  {
    hide Run, CanRun;
    RunOne(s, Stop);
    var s1 := Step(s, Stop);
    ClosedNow(s1, at);
    assert [] + [CloseSession(at)] == [CloseSession(at)];
    RunOne(s1, StreamClosed(at, at));
    RunJoin(s, [Stop], [StreamClosed(at, at)]);
  }

  /** A system header, an I-frame, and an I-frame 20 minutes after the file was asked for: two files, and the second one starts
      with the system header too. */
  lemma TwoFiles(now: Clock, at: Clock, h: Frame, a: Frame, b: Frame)
    requires Small([h, a]) && Small([h, b]) && h.kind == 0x80 && a.kind == b.kind == 1
    requires 0 <= a.at.ms - now.ms < 1200000 <= b.at.ms - now.ms < 0x1_0000_0000
    ensures var s, es := Initial(false, now),
              [Response(now)] + [RecordOpened, CifOpened, IifOpened]
              + ([FrameIn(h, at, at)] + [Written]) + ([FrameIn(a, at, at)] + [Written])
              + ([FrameIn(b, at, at)] + [RecordOpened, CifOpened, IifOpened] + [Written] + [Written])
              + ([Stop] + [StreamClosed(at, at)]);
            CanRun(s, es) && !Run(s, es).alive && Run(s, es).files == [[h, a], [h, b]]
  {
    hide Run, CanRun, Initial;
    var s := Initial(false, now);
    FirstFile(now, now);
    var e0 := [Response(now)] + [RecordOpened, CifOpened, IifOpened];
    assert [] + [h] == [h] && [h] + [a] == [h, a];
    SmallFirst(h, a);
    PlainFrame(now, None, [], [], [], [[]], h, at);
    assert [[]][..0] + [[h]] == [[h]] && [[h]][..0] + [[h, a]] == [[h, a]];
    RunJoin(s, e0, [FrameIn(h, at, at)] + [Written]);
    var e1 := e0 + ([FrameIn(h, at, at)] + [Written]);
    PlainFrame(now, Some(h), [h], [], [h], [[h]], a, at);
    RunJoin(s, e1, [FrameIn(a, at, at)] + [Written]);
    var e2 := e1 + ([FrameIn(a, at, at)] + [Written]);
    NextFile(now, h, [h, a], [], [h, a], [[h, a]], b, at);
    var more := [FrameIn(b, at, at)] + [RecordOpened, CifOpened, IifOpened] + [Written] + [Written];
    RunJoin(s, e2, more);
    Ends(Run(s, e2 + more), at);
    RunJoin(s, e2 + more, [Stop] + [StreamClosed(at, at)]);
    assert [] + [[h, a]] + [[h, b]] == [[h, a], [h, b]];
  }

  lemma SmallFirst(h: Frame, a: Frame)
    requires Small([h, a])
    ensures Small([h])
  {
    assert h in [h, a];
  }
}
