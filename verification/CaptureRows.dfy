/** The rows that a job's session keeps in the database: one for each file, unavailable until the file is closed. */
module CaptureRows {
  import opened RecordIndex
  import opened CaptureSpec
  import opened CaptureSafety
  import opened CaptureRuns

  /** Whether the rows, in the order of their files, are available. The row of a file is inserted once the file is open, and
      marked as available once a package of its own has closed it. */
  ghost function RowsAfter(rows: seq<bool>, e: Event): seq<bool>
  {
    match e
    case Inserted => rows + [false]
    case Updated => if rows == [] then rows else rows[|rows| - 1 := true]
    case _ => rows
  }

  ghost function RowsOf(rows: seq<bool>, es: seq<Event>): seq<bool>
    decreases |es|
  {
    if es == [] then rows else RowsOf(RowsAfter(rows, es[0]), es[1..])
  }

  ghost predicate RowsMatch(files: nat, open: bool, updating: bool, rows: seq<bool>)
  {
    && |rows| == files + (if open then 1 else 0) && (open ==> !rows[files])
    && (forall k :: 0 <= k < files ==> rows[k] == !(updating && k == files - 1))
    && (updating ==> files > 0)
  }

  /** Whether a file is open when the last package of the queue is reached. */
  ghost predicate OpenAtLast(q: seq<Package>, open: bool)
  {
    q != [] && OpenAfter(q[..|q| - 1], open)
  }

  /** What the rows are between events; `left` says whether the end will find a file open. */
  ghost predicate RowsInv(s: State, rows: seq<bool>, left: bool)
  {
    if s.alive then
      && RowsMatch(|s.files|, s.fileOpened && s.operation != Inserting, s.operation == Updating, rows)
      && (s.info.ending ==> OpenAtLast(RestQueue(s), s.fileOpened) == left)
    else |rows| == |s.files| && (left ==> rows != []) && forall k :: 0 <= k < |rows| ==> rows[k] == !(left && k == |rows| - 1)
  }

  lemma LastOfTail(q: seq<Package>, open: bool)
    requires |q| > 1
    ensures OpenAtLast(q, open) == OpenAtLast(q[1..], OpenAfterHead(q[0], open))
  {
    OpenAfterTail(q[..|q| - 1], open);
    assert q[..|q| - 1][1..] == q[1..][..|q| - 2];
  }

  /** Work on the head begins: a closed file's row is to be marked, unless it is the end that closes it. */
  lemma StartRows(t: State, rows: seq<bool>, left: bool)
    requires Ready(t) && t.info.job && RowsMatch(|t.files|, t.fileOpened, false, rows)
    requires t.info.ending ==> OpenAtLast(t.queue, t.fileOpened) == left
    ensures RowsInv(Start(t), rows, left)
  {
    hide FilesOf, FramesOf, Flatten, OpenAfter, Ordered;
    if t.queue != [] {
      OrderedHead(t.queue, t.fileOpened);
      if |t.queue| > 1 {
        LastOfTail(t.queue, t.fileOpened);
      } else {
        NothingQueued(t.fileOpened);
      }
    }
  }

  lemma NothingQueued(open: bool)
    ensures OpenAfter([], open) == open
  {
  }

  lemma CompletionRows(s: State, e: Event, rows: seq<bool>, left: bool)
    requires Safe(s) && Enabled(s, e) && Completion(e) && s.info.job && RowsInv(s, rows, left)
    ensures RowsInv(Step(s, e), RowsAfter(rows, e), left)
  {
    hide FilesOf, FramesOf, Flatten, OpenAfter, Ordered, Start;
    match e
    case IifOpened =>
      IifOpenedReady(s);
      EndLast(s);
      LastOrTail(s.queue, s.fileOpened, s.info.ending);
    case Written => WrittenRows(s, rows, left);
    case Inserted => RowWrittenRows(s, e, rows, left);
    case Updated => RowWrittenRows(s, e, rows, left);
    case _ =>
  }

  lemma WrittenRows(s: State, rows: seq<bool>, left: bool)
    requires Safe(s) && Enabled(s, Written) && s.info.job && RowsInv(s, rows, left)
    ensures RowsInv(Step(s, Written), rows, left)
  {
    hide FilesOf, FramesOf, Flatten, OpenAfter, Ordered, Start;
    EndLast(s);
    LastOrTail(s.queue, s.fileOpened, s.info.ending);
    WrittenReady(s);
    StartRows(s.(current := s.current + [s.queue[0].frame], queue := s.queue[1..], operation := Idle), rows, left);
  }

  lemma RowWrittenRows(s: State, e: Event, rows: seq<bool>, left: bool)
    requires Safe(s) && Enabled(s, e) && (e == Inserted || e == Updated) && s.info.job && RowsInv(s, rows, left)
    ensures RowsInv(Step(s, e), RowsAfter(rows, e), left)
  {
    hide FilesOf, FramesOf, Flatten, OpenAfter, Ordered, Start;
    StartRows(s.(queue := s.queue[1..], operation := Idle), RowsAfter(rows, e), left);
  }

  /** The last package is the end, once the session is ending. */
  lemma EndLast(s: State)
    requires Inv(s) && s.alive
    ensures var q := RestQueue(s); s.info.ending ==> q != [] && q[|q| - 1].CloseSession?
  {
  }

  lemma LastOrTail(q: seq<Package>, open: bool, ending: bool)
    requires q != [] && !q[0].CloseSession? && (ending ==> q[|q| - 1].CloseSession?)
    ensures ending ==> OpenAtLast(q, open) == OpenAtLast(q[1..], OpenAfterHead(q[0], open))
  {
    if |q| > 1 {
      LastOfTail(q, open);
    }
  }

  /** A package that joins the queue changes no row; the end finds open what then would stay open. */
  lemma AddRows(s: State, p: Package, rows: seq<bool>, left: bool)
    requires Inv(s) && s.alive && !s.info.ending && HasRoom(s) && Fits(s, p) && s.info.job && RowsInv(s, rows, false)
    requires p.CloseSession? ==> left == WillBeOpen(s)
    ensures RowsInv(AddAndStart(s, p), rows, left)
  {
    hide FilesOf, FramesOf, Flatten, OpenAfter, Ordered, Start;
    var t := Add(s, p);
    AddKeeps(s, p);
    if s.queue == [] {
      NothingQueued(s.fileOpened);
      assert t.queue[..0] == [];
      StartRows(t, rows, left);
    } else {
      StartBusy(t);
      var q := RestQueue(s);
      assert RestQueue(t) == q + [p] && (q + [p])[..|q|] == q;
    }
  }

  lemma FrameRows(s: State, f: Frame, closeAt: Clock, openAt: Clock, rows: seq<bool>)
    requires Safe(s) && Enabled(s, FrameIn(f, closeAt, openAt)) && !s.info.ending && s.info.job && RowsInv(s, rows, false)
    ensures RowsInv(Step(s, FrameIn(f, closeAt, openAt)), rows, false)
  {
    hide FilesOf, FramesOf, Flatten, OpenAfter, Ordered, Start, AddAndStart, Incise;
    var k := KeepHeader(s, f);
    if Incises(k, f) {
      InciseRows(k, closeAt, openAt, rows);
      InciseKeeps(k, closeAt, openAt);
      AddRows(Incise(k, closeAt, openAt), FramePackage(f), rows, false);
    } else if HasRoom(k) {
      AddRows(k, FramePackage(f), rows, false);
    } else {
      FullQueue(k, FramePackage(f));
    }
  }

  lemma FullQueue(s: State, p: Package)
    requires Inv(s) && s.alive && !HasRoom(s)
    ensures AddAndStart(s, p) == s
  {
    StartBusy(s);
  }

  lemma InciseRows(s: State, closeAt: Clock, openAt: Clock, rows: seq<bool>)
    requires Safe(s) && s.alive && !s.info.ending && s.info.responded && s.info.job && RowsInv(s, rows, false)
    requires |s.queue| + 3 <= MAX_CAPTURE_FRAME_LIST_LEN
    ensures RowsInv(Incise(s, closeAt, openAt), rows, false) && Incise(s, closeAt, openAt).info.job
  {
    hide FilesOf, FramesOf, Flatten, OpenAfter, Ordered, Start;
    var c := AddAndStart(s, CloseFile(closeAt));
    AddRows(s, CloseFile(closeAt), rows, false);
    AddAndStartKeeps(s, CloseFile(closeAt));
    AddRows(c, OpenFile(openAt), rows, false);
    ReopenKeeps(s, closeAt, openAt);
  }

  lemma EndRows(s: State, closeAt: Clock, endAt: Clock, rows: seq<bool>)
    requires Safe(s) && Enabled(s, StreamClosed(closeAt, endAt)) && s.info.job && RowsInv(s, rows, false)
    ensures RowsInv(Step(s, StreamClosed(closeAt, endAt)), rows, !s.fileOpened && s.info.responded)
  {
    hide FilesOf, FramesOf, Flatten, OpenAfter, Ordered, Start, AddAndStart;
    if s.fileOpened {
      OpenStays(s);
      AddRows(s, CloseFile(closeAt), rows, false);
      AddAndStartKeeps(s, CloseFile(closeAt));
      AddRows(AddAndStart(s, CloseFile(closeAt)), CloseSession(endAt), rows, false);
    } else {
      AddRows(s, CloseSession(endAt), rows, s.info.responded);
    }
  }

  lemma OpenStays(s: State)
    requires Safe(s) && s.alive && !s.info.ending && s.fileOpened
    ensures WillBeOpen(s)
  {
  }

  lemma StepRows(s: State, e: Event, rows: seq<bool>, left: bool)
    requires Safe(s) && Quiet(s) && Enabled(s, e) && !e.StreamClosed? && s.info.job && RowsInv(s, rows, left)
    requires !s.info.ending ==> !left
    ensures RowsInv(Step(s, e), RowsAfter(rows, e), left) && Step(s, e).info.job && Step(s, e).info.ending == s.info.ending
  {
    hide FilesOf, FramesOf, Flatten, OpenAfter, Ordered, Start, RowsMatch, OnFrame;
    match e
    case Response(at) =>
      AddRows(Answered(s), OpenFile(at), rows, false);
    case FrameIn(f, closeAt, openAt) =>
      FrameRows(s, f, closeAt, openAt, rows);
      FrameKeepsLink(s, f, closeAt, openAt);
    case Stop =>
    case _ =>
      CompletionRows(s, e, rows, left);
      CompletionKeeps(s, e);
  }

  lemma {:induction false} RunRows(s: State, es: seq<Event>, rows: seq<bool>, left: bool)
    requires Safe(s) && Quiet(s) && CanRun(s, es) && (forall e <- es :: !e.StreamClosed?)
    requires s.info.job && RowsInv(s, rows, left) && (!s.info.ending ==> !left)
    ensures RowsInv(Run(s, es), RowsOf(rows, es), left) && Run(s, es).info.job && Run(s, es).info.ending == s.info.ending
    decreases |es|
  {
    hide RowsInv, Step, Safe, Quiet, RowsAfter;
    if es != [] {
      assert es[0] in es;
      StepRows(s, es[0], rows, left);
      StepKeeps(s, es[0]);
      RunRows(Step(s, es[0]), es[1..], RowsAfter(rows, es[0]), left);
    }
  }

  lemma {:induction false} RowsAppend(a: seq<Event>, b: seq<Event>, rows: seq<bool>)
    ensures RowsOf(rows, a + b) == RowsOf(RowsOf(rows, a), b)
    decreases |a|
  {
    if a == [] {
      assert a + b == b;
    } else {
      assert (a + b)[1..] == a[1..] + b;
      RowsAppend(a[1..], b, RowsAfter(rows, a[0]));
    }
  }

  lemma EndsThen(s: State, closeAt: Clock, endAt: Clock)
    requires Enabled(s, StreamClosed(closeAt, endAt))
    ensures var t := Step(s, StreamClosed(closeAt, endAt)); t.info.ending && t.info.job == s.info.job
  {
    hide Start;
    if s.fileOpened && s.queue == [] {
      StartKeepsLength(Add(s, CloseFile(closeAt)));
    }
  }

  lemma StartKeepsLength(s: State)
    ensures |Start(s).queue| <= |s.queue|
  {
  }

  /** When a job's session is gone, every file has a row, and every row is available but the last one, if the stream was
      closed while no file was open: then the end of the session closes the file, and nothing marks its row. */
  lemma RowsEnd(now: Clock, a: seq<Event>, closeAt: Clock, endAt: Clock, b: seq<Event>)
    requires (forall e <- a + b :: !e.StreamClosed?)
    requires CanRun(Initial(true, now), a + ([StreamClosed(closeAt, endAt)] + b))
    ensures CanRun(Initial(true, now), a)
    ensures var es := a + ([StreamClosed(closeAt, endAt)] + b);
            var s, t, rows := Run(Initial(true, now), a), Run(Initial(true, now), es), RowsOf([], es);
            !t.alive ==>
              && |rows| == |t.files|
              && forall k :: 0 <= k < |rows| ==> rows[k] == !(k == |rows| - 1 && !s.fileOpened && s.info.responded)
  {
    hide RowsInv, Safe, Quiet, Step, Initial, Enabled, CanRun, Run, RowsOf, RowsAfter;
    var s0, e := Initial(true, now), StreamClosed(closeAt, endAt);
    InitialRows(now);
    RunAppend(s0, a, [e] + b);
    RowsAppend(a, [e] + b, []);
    var s, rows := Run(s0, a), RowsOf([], a);
    assert forall x <- a :: x in a + b;
    assert forall x <- b :: x in a + b;
    RunRows(s0, a, [], false);
    RunKeeps(s0, a);
    RunFirst(s, e, b, rows);
    EndRows(s, closeAt, endAt, rows);
    StepKeeps(s, e);
    EndsThen(s, closeAt, endAt);
    var left := !s.fileOpened && s.info.responded;
    RunRows(Step(s, e), b, rows, left);
    RowsGone(Run(Step(s, e), b), RowsOf(rows, b), left);
  }

  lemma InitialRows(now: Clock)
    ensures var s := Initial(true, now); Safe(s) && Quiet(s) && RowsInv(s, [], false) && s.info.job && !s.info.ending
  {
  }

  lemma RunFirst(s: State, e: Event, b: seq<Event>, rows: seq<bool>)
    requires CanRun(s, [e] + b)
    ensures Enabled(s, e) && CanRun(Step(s, e), b) && Run(s, [e] + b) == Run(Step(s, e), b)
    ensures RowsOf(rows, [e] + b) == RowsOf(RowsAfter(rows, e), b) && (e.StreamClosed? ==> RowsAfter(rows, e) == rows)
  {
    hide Enabled, Step;
    assert ([e] + b)[1..] == b;
  }

  lemma RowsGone(t: State, rows: seq<bool>, left: bool)
    requires RowsInv(t, rows, left)
    ensures !t.alive ==> |rows| == |t.files| && forall k :: 0 <= k < |rows| ==> rows[k] == !(k == |rows| - 1 && left)
  {
  }

  lemma RunMore(s: State, e: Event, b: seq<Event>, rows: seq<bool>)
    requires Enabled(s, e) && CanRun(Step(s, e), b)
    ensures CanRun(s, [e] + b) && Run(s, [e] + b) == Run(Step(s, e), b)
    ensures RowsOf(rows, [e] + b) == RowsOf(RowsAfter(rows, e), b)
  {
    hide Enabled, Step;
    assert ([e] + b)[1..] == b;
  }

  /** A job's first file is asked for, and the stream closed before it is open. */
  lemma ClosedEarly(now: Clock)
    ensures var s := Initial(true, now);
            && Enabled(s, Response(now))
            && var s1 := Step(s, Response(now));
            && Enabled(s1, Stop)
            && var s2 := Step(s1, Stop);
            && Enabled(s2, StreamClosed(now, now))
            && var s3 := Step(s2, StreamClosed(now, now));
            && s3.queue == [OpenFile(now), CloseSession(now)] && s3.operation == OpeningRecord && !s3.fileOpened && s3.alive
            && s3.info.job && s3.files == [] && s3.current == []
  {
  }

  lemma OpenedLate(s: State)
    requires |s.queue| == 2 && s.queue[1].CloseSession? && s.operation == OpeningRecord && !s.fileOpened && s.alive
    requires s.info.job && s.files == [] && s.current == []
    ensures Enabled(s, RecordOpened)
         && var s1 := Step(s, RecordOpened);
            && Enabled(s1, CifOpened)
            && var s2 := Step(s1, CifOpened);
            && Enabled(s2, IifOpened)
            && var s3 := Step(s2, IifOpened);
            && Enabled(s3, Inserted)
            && var s4 := Step(s3, Inserted); !s4.alive && |s4.files| == 1
  {
  }

  /** A job stopped before its file is open: the file is closed in the end, and its row stays unavailable. */
  lemma StoppedEarly(now: Clock)
    ensures var es := [Response(now), Stop, StreamClosed(now, now), RecordOpened, CifOpened, IifOpened, Inserted];
            && CanRun(Initial(true, now), es) && RowsOf([], es) == [false]
            && var t := Run(Initial(true, now), es); !t.alive && |t.files| == 1
  {
    ClosedEarly(now);
    var s0 := Initial(true, now);
    var s1 := Step(s0, Response(now));
    var s2 := Step(s1, Stop);
    var s3 := Step(s2, StreamClosed(now, now));
    OpenedLate(s3);
    hide Enabled, Step, Initial;
    var s4 := Step(s3, RecordOpened);
    var s5 := Step(s4, CifOpened);
    var s6 := Step(s5, IifOpened);
    RunMore(s6, Inserted, [], []);
    RunMore(s5, IifOpened, [Inserted], []);
    RunMore(s4, CifOpened, [IifOpened, Inserted], []);
    RunMore(s3, RecordOpened, [CifOpened, IifOpened, Inserted], []);
    RunMore(s2, StreamClosed(now, now), [RecordOpened, CifOpened, IifOpened, Inserted], []);
    RunMore(s1, Stop, [StreamClosed(now, now), RecordOpened, CifOpened, IifOpened, Inserted], []);
    RunMore(s0, Response(now), [Stop, StreamClosed(now, now), RecordOpened, CifOpened, IifOpened, Inserted], []);
  }
}
