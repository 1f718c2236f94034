/** The recording session with its buffers, offsets and files; every callback is shown to take the step of CaptureSpec. */
module Capture {
  import opened Bytes
  import opened RecordIndex
  import opened CaptureSpec
  import opened Options
  import opened CaptureSafety
  import opened CaptureRuns
  import ProtocolPackage

  const CIF_BUF_LEN := 5 * 1024
  const IIF_BUF_LEN := 3 * 1024

  /** css_capture_package_t: `status` is 1 once work on the package has begun. */
  datatype Queued = Queued(package: Package, status: int)

  /** The bits of the session's status word. */
  datatype Status = Status(connected: bool, reading: bool, fileOpened: bool, closing: bool)

  /** A write of `data` at `offset`, inside the file or at its end. */
  function WriteAt(file: seq<byte>, offset: nat, data: seq<byte>): seq<byte>
    requires offset <= |file|
  {
    file[..offset] + data + if offset + |data| < |file| then file[offset + |data|..] else []
  }

  method PutInt(buf: array<byte>, p: nat, v: int, size: nat) returns (q: nat)
    requires p + size <= buf.Length
    modifies buf
    ensures q == p + size && buf[..q] == old(buf[..p]) + BigEndian(v, size)
  {
    ProtocolPackage.EncodeInt(buf, p, v, size);
    q := p + size;
    assert buf[..q] == buf[..][..q];
  }

  method PutTime(buf: array<byte>, p: nat, t: Time) returns (q: nat)
    requires p + 8 <= buf.Length
    modifies buf
    ensures q == p + 8 && buf[..q] == old(buf[..p]) + TimeRecord(t)
  {
    hide BigEndian;
    q := PutInt(buf, p, t.year, 2);
    q := PutInt(buf, q, t.month, 1);
    q := PutInt(buf, q, t.day, 1);
    q := PutInt(buf, q, t.milliSeconds, 4);
  }

  method PutCif(buf: array<byte>, p: nat, offset: int, f: Frame) returns (q: nat)
    requires p + CIF_SIZE <= buf.Length
    modifies buf
    ensures q == p + CIF_SIZE && buf[..q] == old(buf[..p]) + CifRecord(offset, f)
  {
    hide BigEndian, TimeRecord;
    q := PutInt(buf, p, offset, 4);
    q := PutInt(buf, q, |f.data|, 4);
    q := PutInt(buf, q, f.kind, 4);
    q := PutTime(buf, q, f.at.sv);
  }

  method PutIif(buf: array<byte>, p: nat, offset: int, f: Frame) returns (q: nat)
    requires p + IIF_SIZE <= buf.Length
    modifies buf
    ensures q == p + IIF_SIZE && buf[..q] == old(buf[..p]) + IifRecord(offset, f)
  {
    hide BigEndian, TimeRecord;
    q := PutInt(buf, p, offset, 4);
    q := PutTime(buf, q, f.at.sv);
  }

  /** The queue with its status fields: only the head may have been begun, and it has been once an operation is on. */
  ghost predicate Matches(ps: seq<Queued>, q: seq<Package>, o: Operation)
  {
    && |ps| == |q|
    && (forall i :: 0 <= i < |ps| ==> ps[i] == Queued(q[i], if i == 0 && o != Idle then 1 else 0))
    && (ps == [] ==> o == Idle)
  }

  lemma MatchesLonger(ps: seq<Queued>, q: seq<Package>, o: Operation, p: Package)
    requires Matches(ps, q, o)
    ensures Matches(ps + [Queued(p, 0)], q + [p], o)
  {
  }

  lemma MatchesShorter(ps: seq<Queued>, q: seq<Package>, o: Operation)
    requires Matches(ps, q, o) && ps != []
    ensures Matches(ps[1..], q[1..], Idle)
  {
  }

  /** The open files, buffers included, are the layout of the frames written so far, and the offsets their lengths. */
  ghost predicate OutputMatches(open: bool, out: FileSet, recordOffset: int, cifOffset: int, fs: seq<Frame>)
  {
    if open then out == Layout(fs) && recordOffset == |out.record| && cifOffset == |out.cif|
    else out == Layout([]) && recordOffset == 0 && cifOffset == 0
  }

  ghost predicate FieldsMatch(alive: bool, status: Status, header: Option<Frame>, startTime: Clock, m: State)
  {
    && alive == m.alive && header == m.info.header && startTime == m.startTime
    && status == Status(m.info.connected, m.info.reading, m.fileOpened, m.info.closing)
  }

  /** The files are opened one after the other: the record, its .cif and its .iif file. */
  ghost predicate WritersMatch(filesOpen: nat, m: State)
  {
    filesOpen == if m.fileOpened then 3 else if m.operation == OpeningIif then 2 else if m.operation == OpeningCif then 1 else 0
  }

  ghost predicate ClosedMatch(closed: seq<FileSet>, files: seq<seq<Frame>>)
  {
    |closed| == |files| && forall k :: 0 <= k < |closed| ==> closed[k] == Layout(files[k])
  }

  class Session {
    const job: bool
    var alive: bool
    var status: Status
    var packages: seq<Queued>
    var packageCnt: int
    var header: Option<Frame>
    var startTime: Clock
    var filesOpen: nat         // how many of the three writers have opened their file
    var recordFileOffset: int
    var cifFileOffset: int
    var cifBuf: array?<byte>
    var cifLen: nat
    var iifBuf: array?<byte>
    var iifLen: nat

    var disk: FileSet          // what has reached the three open files
    var closed: seq<FileSet>   // the files that have been closed

    ghost var m: State         // the state of CaptureSpec that this session is in

    // ---- how the fields stand for the model

    ghost predicate BuffersShaped()
      reads this`cifBuf, this`cifLen, this`iifBuf, this`iifLen
    {
      && (cifBuf == null ==> cifLen == 0) && (cifBuf != null ==> cifBuf.Length == CIF_BUF_LEN && cifLen <= CIF_BUF_LEN)
      && (iifBuf == null ==> iifLen == 0) && (iifBuf != null ==> iifBuf.Length == IIF_BUF_LEN && iifLen <= IIF_BUF_LEN)
      && (cifBuf != null ==> cifBuf != iifBuf)
    }

    ghost function CifLive(): seq<byte>
      requires BuffersShaped()
      reads this`cifBuf, this`cifLen, this`iifBuf, this`iifLen, cifBuf
    {
      if cifBuf == null then [] else cifBuf[..cifLen]
    }

    ghost function IifLive(): seq<byte>
      requires BuffersShaped()
      reads this`cifBuf, this`cifLen, this`iifBuf, this`iifLen, iifBuf
    {
      if iifBuf == null then [] else iifBuf[..iifLen]
    }

    /** What was flushed, followed by what is buffered. */
    ghost function Output(): FileSet
      requires BuffersShaped()
      reads this`disk, this`cifBuf, this`cifLen, this`iifBuf, this`iifLen, cifBuf, iifBuf
    {
      FileSet(disk.record, disk.cif + CifLive(), disk.iif + IifLive())
    }

    ghost predicate Tied()
      reads this, cifBuf, iifBuf
    {
      && packageCnt == |packages| && Matches(packages, m.queue, m.operation)
      && FieldsMatch(alive, status, header, startTime, m) && job == m.info.job
      && WritersMatch(filesOpen, m) && BuffersShaped()
      && OutputMatches(status.fileOpened, Output(), recordFileOffset, cifFileOffset, m.current)
      && ClosedMatch(closed, m.files)
    }

    ghost predicate Valid()
      reads this, cifBuf, iifBuf
    {
      Tied() && Safe(m) && Quiet(m)
    }

    ghost function Bufs(): set<object>
      reads this`cifBuf, this`iifBuf
    {
      (if cifBuf == null then {} else {cifBuf}) + (if iifBuf == null then {} else {iifBuf})
    }

    constructor (job: bool, now: Clock)
      ensures Valid() && m == Initial(job, now) && closed == []
      ensures Bufs() == {}
    {
      this.job := job;
      alive, status := true, Status(true, true, false, false);
      packages, packageCnt, header, startTime := [], 0, None, now;
      filesOpen, recordFileOffset, cifFileOffset := 0, 0, 0;
      cifBuf, cifLen, iifBuf, iifLen := null, 0, null, 0;
      disk, closed := FileSet([], [], []), [];
      m := Initial(job, now);
      new;
      InitialSafe(job, now);
    }

    // ---- the queue

    method PackageAdd(p: Package)
      requires Tied()
      modifies this`packages, this`packageCnt, this`m
      ensures Tied() && m == Add(old(m), p)
    {
      if packageCnt > MAX_CAPTURE_FRAME_LIST_LEN {
        return;
      }
      MatchesLonger(packages, m.queue, m.operation, p);
      hide Matches;
      packages := packages + [Queued(p, 0)];
      packageCnt := packageCnt + 1;
      m := Add(m, p);
    }

    /** Take the head away. */
    method RemoveHeader()
      requires Tied() && packages != [] && (m.fileOpened || (m.operation != OpeningCif && m.operation != OpeningIif))
      modifies this`packages, this`packageCnt, this`m
      ensures Tied() && m == old(m).(queue := old(m).queue[1..], operation := Idle)
      ensures packages == old(packages[1..])
    {
      hide OutputMatches, ClosedMatch, BuffersShaped;
      MatchesShorter(packages, m.queue, m.operation);
      packages := packages[1..];
      packageCnt := packageCnt - 1;
      m := m.(queue := m.queue[1..], operation := Idle);
    }

    // ---- the index buffers

    method WriteCif(f: Frame)
      requires BuffersShaped()
      modifies this`cifBuf, this`cifLen, this`cifFileOffset, this`disk, cifBuf
      ensures BuffersShaped()
      ensures disk == old(disk).(cif := disk.cif)
      ensures disk.cif + CifLive() == old(disk.cif + CifLive()) + CifRecord(recordFileOffset, f)
      ensures cifFileOffset == old(cifFileOffset) + CIF_SIZE
      ensures cifBuf == old(cifBuf) || fresh(cifBuf)
    {
      hide CifRecord;
      if cifBuf == null {
        cifBuf := new byte[CIF_BUF_LEN];
        cifLen := 0;
      }
      if CIF_BUF_LEN - cifLen < CIF_SIZE {
        disk := disk.(cif := disk.cif + cifBuf[..cifLen]);
        cifBuf := new byte[CIF_BUF_LEN];
        cifLen := 0;
      }
      ghost var before := disk.cif + cifBuf[..cifLen];
      cifLen := PutCif(cifBuf, cifLen, recordFileOffset, f);
      assert disk.cif + cifBuf[..cifLen] == before + CifRecord(recordFileOffset, f);
      cifFileOffset := cifFileOffset + CIF_SIZE;
    }

    method WriteIif(f: Frame)
      requires BuffersShaped()
      modifies this`iifBuf, this`iifLen, this`disk, iifBuf
      ensures BuffersShaped()
      ensures disk == old(disk).(iif := disk.iif)
      ensures disk.iif + IifLive() == old(disk.iif + IifLive()) + IifRecord(cifFileOffset, f)
      ensures iifBuf == old(iifBuf) || fresh(iifBuf)
    {
      hide IifRecord;
      if iifBuf == null {
        iifBuf := new byte[IIF_BUF_LEN];
        iifLen := 0;
      }
      if IIF_BUF_LEN - iifLen < IIF_SIZE {
        disk := disk.(iif := disk.iif + iifBuf[..iifLen]);
        iifBuf := new byte[IIF_BUF_LEN];
        iifLen := 0;
      }
      ghost var before := disk.iif + iifBuf[..iifLen];
      iifLen := PutIif(iifBuf, iifLen, cifFileOffset, f);
      assert disk.iif + iifBuf[..iifLen] == before + IifRecord(cifFileOffset, f);
    }

    // ---- the work on each kind of package

    /** Flush both index buffers and let the three files go; the next ones are new. */
    method TakeFiles() returns (out: FileSet)
      requires BuffersShaped()
      modifies this`cifBuf, this`cifLen, this`iifBuf, this`iifLen, this`disk
      ensures out == old(Output())
      ensures BuffersShaped() && Bufs() == {} && Output() == FileSet([], [], [])
    {
      out := FileSet(disk.record,
                     disk.cif + if cifBuf == null then [] else cifBuf[..cifLen],
                     disk.iif + if iifBuf == null then [] else iifBuf[..iifLen]);
      cifBuf, cifLen, iifBuf, iifLen := null, 0, null, 0;
      disk := FileSet([], [], []);
    }

    /** Flush both indexes and close the three files. */
    method CloseThree()
      requires Tied() && status.fileOpened && m.operation != OpeningCif && m.operation != OpeningIif
      modifies this`status, this`cifBuf, this`cifLen, this`iifBuf, this`iifLen
      modifies this`filesOpen, this`recordFileOffset, this`cifFileOffset, this`disk, this`closed, this`m
      ensures Tied() && m == CloseFiles(old(m))
      ensures Bufs() == {}
    {
      hide Matches, OutputMatches, ClosedMatch, BuffersShaped;
      var out := TakeFiles();
      FileGone(out);
    }

    /** The closed files are noted, and the offsets are those of new ones. */
    method FileGone(out: FileSet)
      requires packageCnt == |packages| && Matches(packages, m.queue, m.operation) && status.fileOpened
      requires FieldsMatch(alive, status, header, startTime, m) && job == m.info.job && ClosedMatch(closed, m.files)
      requires BuffersShaped() && Output() == FileSet([], [], [])
      requires OutputMatches(true, out, recordFileOffset, cifFileOffset, m.current)
      requires m.operation != OpeningCif && m.operation != OpeningIif
      modifies this`status, this`filesOpen, this`recordFileOffset, this`cifFileOffset, this`closed, this`m
      ensures Tied() && m == CloseFiles(old(m))
    {
      hide Matches, OutputMatches, ClosedMatch, BuffersShaped;
      OneMoreClosed(closed, m.files, out, recordFileOffset, cifFileOffset, m.current);
      status := status.(fileOpened := false);
      filesOpen, recordFileOffset, cifFileOffset, closed := 0, 0, 0, closed + [out];
      m := CloseFiles(m);
    }

    /** capture_session_close: drop what is queued, close what is open, and be gone. */
    method Close()
      requires Tied() && (m.operation == Updating || m.operation == Idle)
      modifies this
      ensures Tied() && m == CloseFiles(old(m)).(queue := [], operation := Idle, alive := false)
      ensures Bufs() <= old(Bufs())
    {
      hide OutputMatches, ClosedMatch, BuffersShaped;
      while packages != []
        modifies this`packages, this`packageCnt, this`m
        invariant Tied() && m == old(m).(queue := m.queue, operation := m.operation)
        invariant packages == [] ==> m.operation == Idle
        invariant m.operation == Updating || m.operation == Idle
      {
        RemoveHeader();
      }
      if status.fileOpened {
        CloseThree();
      }
      alive := false;
      m := m.(alive := false);
    }

    /** Work on the head has begun. */
    method MarkHead(ghost o: Operation)
      requires Tied() && packages != [] && m.operation == Idle && (o == OpeningRecord || o == Writing || o == Updating)
      modifies this`packages, this`m
      ensures Tied() && m == old(m).(operation := o) && |packages| == |old(packages)|
    {
      hide OutputMatches, ClosedMatch, BuffersShaped;
      packages := packages[0 := packages[0].(status := 1)];
      m := m.(operation := o);
    }

    /** The files of the package at the head are asked for. */
    method OpenHead(at: Clock)
      requires Tied() && packages != [] && m.operation == Idle
      modifies this`packages, this`startTime, this`m
      ensures Tied() && m == old(m).(operation := OpeningRecord, startTime := at)
    {
      hide Matches, OutputMatches, ClosedMatch, BuffersShaped;
      MarkHead(OpeningRecord);
      startTime := at;
      m := m.(startTime := at);
    }

    /** The end of the session is at the head. */
    method EndHead()
      requires Tied() && packages != [] && m.operation == Idle
      modifies this
      ensures Tied() && m == CloseFiles(old(m)).(queue := [], alive := false)
      ensures Bufs() <= old(Bufs())
    {
      hide Matches, OutputMatches, ClosedMatch, BuffersShaped, FieldsMatch;
      MarkHead(Updating);
      Close();
    }

    /** capture_session_do_package_if_necessary. */
    method DoPackage()
      requires Tied() && (m.operation == Idle ==> Ready(m))
      modifies this, Bufs()
      ensures Tied() && m == Start(old(m))
      ensures fresh(Bufs() - old(Bufs()))
      decreases |packages|, 1
    {
      hide OutputMatches, ClosedMatch, BuffersShaped, FilesOf, FramesOf, Flatten, OpenAfter;
      if packages == [] || packages[0].status > 0 {
        return;
      }
      HeadFitsOrder(m);
      var p := packages[0].package;
      assert p == m.queue[0];
      hide Ordered, Ready, Matches;
      match p
      case OpenFile(at) =>
        OpenHead(at);
      case FramePackage(_) =>
        if !status.fileOpened {
          assert false;
        }
        MarkHead(Writing);
      case CloseFile(_) =>
        ClosePackage(m, CloseFiles(m).(queue := m.queue[1..]));
        MarkHead(Updating);
        CloseFileWork();
      case CloseSession(_) =>
        EndHead();
    }

    /** capture_session_close_file; without a row to write, the next package follows at once. */
    method CloseFileWork()
      requires Tied() && packages != [] && status.fileOpened && m.operation == Updating
      requires Ready(CloseFiles(m).(queue := m.queue[1..], operation := Idle))
      modifies this, Bufs()
      ensures Tied()
      ensures var c := CloseFiles(old(m));
              m == if c.info.job then c else Start(c.(queue := c.queue[1..], operation := Idle))
      ensures fresh(Bufs() - old(Bufs()))
      decreases |packages|, 0
    {
      hide Matches, OutputMatches, ClosedMatch, BuffersShaped, Ready, Start;
      CloseThree();
      if !job {
        RemoveHeader();
        DoPackage();
      }
    }

    // ---- what adds packages

    method AddPackage(p: Package)
      requires Tied() && Inv(m) && m.alive && !m.info.ending && (HasRoom(m) ==> Fits(m, p))
      modifies this, Bufs()
      ensures Tied() && m == AddAndStart(old(m), p)
      ensures fresh(Bufs() - old(Bufs()))
    {
      hide Matches, OutputMatches, ClosedMatch, BuffersShaped, FieldsMatch, FilesOf, FramesOf, Flatten, OpenAfter, Ordered, Start;
      if HasRoom(m) {
        AddKeeps(m, p);
      }
      PackageAdd(p);
      DoPackage();
    }

    /** do_preview_response. */
    method OnResponse(at: Clock)
      requires Valid() && Enabled(m, Response(at))
      modifies this, Bufs()
      ensures Valid() && m == Step(old(m), Response(at))
      ensures fresh(Bufs() - old(Bufs()))
    {
      hide Matches, OutputMatches, ClosedMatch, BuffersShaped, FilesOf, FramesOf, Flatten, OpenAfter, Ordered, Start;
      StepKeeps(m, Response(at));
      m := Answered(m);
      AddPackage(OpenFile(at));
    }

    method Reopen(closeAt: Clock, openAt: Clock)
      requires Tied() && Inv(m) && m.alive && !m.info.ending && WillBeOpen(m)
      requires |m.queue| + 2 <= MAX_CAPTURE_FRAME_LIST_LEN
      modifies this, Bufs()
      ensures Tied() && m == AddAndStart(AddAndStart(old(m), CloseFile(closeAt)), OpenFile(openAt))
      ensures fresh(Bufs() - old(Bufs()))
    {
      hide Matches, OutputMatches, ClosedMatch, BuffersShaped, FieldsMatch, FilesOf, FramesOf, Flatten, OpenAfter, Ordered, Start;
      AddAndStartKeeps(m, CloseFile(closeAt));
      AddPackage(CloseFile(closeAt));
      AddPackage(OpenFile(openAt));
    }

    /** The packages of a new file: close, open, and the system header if there is one. */
    method InciseFile(closeAt: Clock, openAt: Clock)
      requires Tied() && Safe(m) && m.alive && !m.info.ending && m.info.responded
      requires |m.queue| + 3 <= MAX_CAPTURE_FRAME_LIST_LEN
      modifies this, Bufs()
      ensures Tied() && m == Incise(old(m), closeAt, openAt)
      ensures fresh(Bufs() - old(Bufs()))
    {
      hide Matches, OutputMatches, ClosedMatch, BuffersShaped, AddAndStart, Add, Inv, WillBeOpen;
      Reopen(closeAt, openAt);
      if header.Some? {
        PackageAdd(FramePackage(header.value));
      }
    }

    method StoreHeader(f: Frame)
      requires Tied()
      modifies this`header, this`m
      ensures Tied() && m == KeepHeader(old(m), f)
    {
      hide Matches, OutputMatches, ClosedMatch, BuffersShaped;
      if f.kind == FRAME_TYPE_SYS_HEADER {
        header := Some(f);
      }
      m := KeepHeader(m, f);
    }

    method TakeFrame(f: Frame, closeAt: Clock, openAt: Clock)
      requires Tied() && Safe(m) && m.alive && !m.info.ending && m.info.responded
      requires Incises(m, f) ==> |m.queue| + 3 <= MAX_CAPTURE_FRAME_LIST_LEN
      modifies this, Bufs()
      ensures Tied()
      ensures m == AddAndStart(if Incises(old(m), f) then Incise(old(m), closeAt, openAt) else old(m), FramePackage(f))
      ensures fresh(Bufs() - old(Bufs()))
    {
      hide Matches, OutputMatches, ClosedMatch, BuffersShaped, FilesOf, FramesOf, Flatten, OpenAfter, Ordered, Start;
      hide AddAndStart, Incise, Inv;
      if IsI(f) && DiffTime(f.at, startTime) >= DEFAULT_INCISION_TIME {
        InciseKeeps(m, closeAt, openAt);
        InciseFile(closeAt, openAt);
      }
      AddPackage(FramePackage(f));
    }

    /** do_preview_frame. */
    method OnFrameIn(f: Frame, closeAt: Clock, openAt: Clock)
      requires Valid() && Enabled(m, FrameIn(f, closeAt, openAt))
      modifies this, Bufs()
      ensures Valid() && m == Step(old(m), FrameIn(f, closeAt, openAt))
      ensures fresh(Bufs() - old(Bufs()))
    {
      hide Matches, OutputMatches, ClosedMatch, BuffersShaped, FieldsMatch, AddAndStart, Incise, Safe, Quiet;
      hide Enabled, Step, Incises, KeepHeader;
      FrameStep(m, f, closeAt, openAt);
      StoreHeader(f);
      TakeFrame(f, closeAt, openAt);
    }

    /** capture_session_stop_record, for a connected session. */
    method OnStop()
      requires Valid() && Enabled(m, Stop)
      modifies this`status, this`m
      ensures Valid() && m == Step(old(m), Stop)
    {
      hide Matches, OutputMatches, ClosedMatch, BuffersShaped, FilesOf, FramesOf, Flatten, OpenAfter, Ordered, Start;
      StepKeeps(m, Stop);
      status := status.(closing := true, reading := false, connected := false);
      m := Step(m, Stop);
    }

    /** on_stream_close_cb. */
    method OnStreamClosed(closeAt: Clock, endAt: Clock)
      requires Valid() && Enabled(m, StreamClosed(closeAt, endAt))
      modifies this, Bufs()
      ensures Valid() && m == Step(old(m), StreamClosed(closeAt, endAt))
      ensures fresh(Bufs() - old(Bufs()))
    {
      hide Matches, OutputMatches, ClosedMatch, BuffersShaped, FilesOf, FramesOf, Flatten, OpenAfter, Ordered, Start;
      StepKeeps(m, StreamClosed(closeAt, endAt));
      if status.fileOpened {
        AddAndStartKeeps(m, CloseFile(closeAt));
        AddPackage(CloseFile(closeAt));
      }
      AddPackage(CloseSession(endAt));
    }

    // ---- callbacks of asynchronous work

    /** One writer has opened its file, and the next is asked to. */
    method NextWriter(ghost o: Operation)
      requires Tied() && !m.fileOpened
      requires (m.operation == OpeningRecord && o == OpeningCif) || (m.operation == OpeningCif && o == OpeningIif)
      modifies this`filesOpen, this`m
      ensures Tied() && m == old(m).(operation := o) && filesOpen == old(filesOpen) + 1
    {
      hide OutputMatches, ClosedMatch, BuffersShaped;
      filesOpen := filesOpen + 1;
      m := m.(operation := o);
    }

    /** The row of the opened file is asked for. */
    method AskForRow()
      requires Tied() && m.fileOpened && m.operation != Idle
      modifies this`m
      ensures Tied() && m == old(m).(operation := Inserting)
    {
      hide OutputMatches, ClosedMatch, BuffersShaped;
      m := m.(operation := Inserting);
    }

    /** capture_session_recordFile_open_cb: the .cif file is next. */
    method OnRecordOpened()
      requires Valid() && Enabled(m, RecordOpened)
      modifies this`filesOpen, this`m
      ensures Valid() && m == Step(old(m), RecordOpened) && filesOpen == 1
    {
      StepKeeps(m, RecordOpened);
      StillOpening(m);
      NextWriter(OpeningCif);
    }

    /** capture_session_cifFile_open_cb: the .iif file is next. */
    method OnCifOpened()
      requires Valid() && Enabled(m, CifOpened)
      modifies this`filesOpen, this`m
      ensures Valid() && m == Step(old(m), CifOpened) && filesOpen == 2
    {
      StepKeeps(m, CifOpened);
      StillOpening(m);
      NextWriter(OpeningIif);
    }

    /** The row has been written, or there is none to write: the package is done. */
    method Finish(ghost t: State)
      requires Tied() && packages != [] && Ready(t) && (m.fileOpened || (m.operation != OpeningCif && m.operation != OpeningIif))
      requires t == m.(queue := m.queue[1..], operation := Idle)
      modifies this, Bufs()
      ensures Tied() && m == Start(t)
      ensures fresh(Bufs() - old(Bufs()))
    {
      hide Matches, OutputMatches, ClosedMatch, BuffersShaped, Ready, Start;
      RemoveHeader();
      DoPackage();
    }

    method OnRowWritten(e: Event)
      requires Valid() && Enabled(m, e) && (e == Inserted || e == Updated)
      modifies this, Bufs()
      ensures Valid() && m == Step(old(m), e)
      ensures fresh(Bufs() - old(Bufs()))
    {
      StepKeeps(m, e);
      hide Matches, OutputMatches, ClosedMatch, BuffersShaped, FilesOf, FramesOf, Flatten, OpenAfter, Ordered, Start;
      QueuesEqual(packages, m.queue, m.operation);
      Finish(m.(queue := m.queue[1..], operation := Idle));
    }

    method MarkOpened()
      requires Tied() && !m.fileOpened && m.current == []
      modifies this`status, this`filesOpen, this`m
      ensures Tied() && m == old(m).(fileOpened := true)
    {
      hide Matches, ClosedMatch, BuffersShaped;
      status := status.(fileOpened := true);
      filesOpen := 3;
      m := m.(fileOpened := true);
    }

    /** capture_session_iifFile_open_cb: the file counts as open; then its row, or the next package. */
    method OnIifOpened()
      requires Valid() && Enabled(m, IifOpened)
      modifies this, Bufs()
      ensures Valid() && m == Step(old(m), IifOpened)
      ensures fresh(Bufs() - old(Bufs()))
    {
      hide Matches, OutputMatches, ClosedMatch, BuffersShaped, FieldsMatch, Start, Safe, Quiet, Ready, Enabled, Step;
      IifStep(m);
      QueuesEqual(packages, m.queue, m.operation);
      MarkOpened();
      if job {
        AskForRow();
      } else {
        Finish(m.(queue := m.queue[1..], operation := Idle));
      }
    }

    /** The frame is in the record file; now its index entries, the .iif one before the .cif one. */
    method OutputFrame(f: Frame)
      requires BuffersShaped() && recordFileOffset == |disk.record|
      modifies this`disk, this`recordFileOffset, this`cifFileOffset
      modifies this`cifBuf, this`cifLen, this`iifBuf, this`iifLen, Bufs()
      ensures BuffersShaped()
      ensures Output() == MoreOutput(old(Output()), f, old(recordFileOffset), old(cifFileOffset))
      ensures recordFileOffset == old(recordFileOffset) + |f.data|
      ensures cifFileOffset == old(cifFileOffset) + CIF_SIZE
      ensures fresh(Bufs() - old(Bufs()))
    {
      hide CifRecord, IifRecord;
      disk := disk.(record := WriteAt(disk.record, recordFileOffset, f.data));
      if IsI(f) {
        WriteIif(f);
      } else {
        assert disk.iif + IifLive() + [] == disk.iif + IifLive();
      }
      WriteCif(f);
      recordFileOffset := recordFileOffset + |f.data|;
    }

    method StoreFrame(f: Frame)
      requires Tied() && status.fileOpened
      requires |RecordBytes(m.current)| + |f.data| < INT32_LIMIT
      modifies this`disk, this`recordFileOffset, this`cifFileOffset, this`m
      modifies this`cifBuf, this`cifLen, this`iifBuf, this`iifLen, Bufs()
      ensures Tied() && m == old(m).(current := old(m).current + [f])
      ensures fresh(Bufs() - old(Bufs()))
    {
      hide Matches, ClosedMatch, BuffersShaped, OutputMatches, MoreOutput, Layout;
      LayoutMore(Output(), recordFileOffset, cifFileOffset, m.current, f);
      OutputFrame(f);
      m := m.(current := m.current + [f]);
    }

    /** capture_session_recordfile_write_cb. */
    method OnWritten()
      requires Valid() && Enabled(m, Written)
      modifies this, Bufs()
      ensures Valid() && m == Step(old(m), Written)
      ensures fresh(Bufs() - old(Bufs()))
    {
      hide Matches, OutputMatches, ClosedMatch, BuffersShaped, FieldsMatch, Start, Safe, Quiet, Ready, Enabled, Step;
      WrittenStep(m);
      QueuesEqual(packages, m.queue, m.operation);
      StatusKnown(alive, status, header, startTime, m);
      StoreFrame(packages[0].package.frame);
      Finish(m.(queue := m.queue[1..], operation := Idle));
    }

    /** Any event at all. */
    method Handle(e: Event)
      requires Valid() && Enabled(m, e)
      modifies this, Bufs()
      ensures Valid() && m == Step(old(m), e)
      ensures fresh(Bufs() - old(Bufs()))
    {
      hide Matches, OutputMatches, ClosedMatch, BuffersShaped, FieldsMatch, Start, Safe, Quiet, Enabled, Step;
      match e
      case Response(at) => OnResponse(at);
      case FrameIn(f, closeAt, openAt) => OnFrameIn(f, closeAt, openAt);
      case RecordOpened => OnRecordOpened();
      case CifOpened => OnCifOpened();
      case IifOpened => OnIifOpened();
      case Inserted => OnRowWritten(e);
      case Written => OnWritten();
      case Updated => OnRowWritten(e);
      case Stop => OnStop();
      case StreamClosed(closeAt, endAt) => OnStreamClosed(closeAt, endAt);
    }
  }

  /** While its files are being opened, a session has none open. */
  lemma StillOpening(m: State)
    requires Safe(m) && m.alive && (m.operation == OpeningRecord || m.operation == OpeningCif || m.operation == OpeningIif)
    ensures !m.fileOpened
  {
  }

  lemma StatusKnown(alive: bool, status: Status, header: Option<Frame>, startTime: Clock, m: State)
    requires FieldsMatch(alive, status, header, startTime, m)
    ensures status.fileOpened == m.fileOpened
  {
  }

  /** What one more frame adds to the three files. */
  ghost function MoreOutput(out: FileSet, f: Frame, recordOffset: int, cifOffset: int): FileSet
  {
    FileSet(out.record + f.data, out.cif + CifRecord(recordOffset, f),
            out.iif + if IsI(f) then IifRecord(cifOffset, f) else [])
  }

  lemma LayoutMore(out: FileSet, r: int, c: int, fs: seq<Frame>, f: Frame)
    requires OutputMatches(true, out, r, c, fs)
    ensures r == |out.record|
    ensures OutputMatches(true, MoreOutput(out, f, r, c), r + |f.data|, c + CIF_SIZE, fs + [f])
  {
    hide CifRecord, IifRecord;
    assert (fs + [f])[..|fs|] == fs;
  }

  lemma RunStep(s: State, es: seq<Event>, i: nat)
    requires i < |es| && CanRun(s, es[i..])
    ensures Enabled(s, es[i]) && CanRun(Step(s, es[i]), es[i + 1..])
    ensures Run(s, es[i..]) == Run(Step(s, es[i]), es[i + 1..])
  {
    hide Enabled, Step;
    assert es[i..][1..] == es[i + 1..];
  }

  /** A whole life of a session: whatever events come, in whatever enabled order, the files that it closes are the
      layouts of the frames that the state machine says, and once it is gone they hold every accepted frame. */
  method Live(job: bool, now: Clock, es: seq<Event>) returns (files: seq<FileSet>, gone: bool)
    requires CanRun(Initial(job, now), es)
    ensures var s := Run(Initial(job, now), es);
            && gone == !s.alive
            && ClosedMatch(files, s.files)
            && (gone ==> s.files == s.info.plan && Flatten(s.files) == s.info.accepted)
  {
    hide Enabled, Step, Initial, Safe, Quiet, Matches, OutputMatches, ClosedMatch, Flatten;
    var session := new Session(job, now);
    var i := 0;
    while i < |es|
      invariant i <= |es|
      invariant session.Valid() && fresh(session) && fresh(session.Bufs())
      invariant CanRun(session.m, es[i..]) && Run(session.m, es[i..]) == Run(Initial(job, now), es)
    {
      RunStep(session.m, es, i);
      session.Handle(es[i]);
      i := i + 1;
    }
    RunEnd(job, now, es);
    assert es[i..] == [];
    files, gone := session.closed, !session.alive;
  }

  lemma QueuesEqual(ps: seq<Queued>, q: seq<Package>, o: Operation)
    requires Matches(ps, q, o)
    ensures ps == [] <==> q == []
    ensures ps != [] ==> ps[0].package == q[0]
  {
  }

  lemma OneMoreClosed(closed: seq<FileSet>, files: seq<seq<Frame>>, out: FileSet, r: int, c: int, fs: seq<Frame>)
    requires ClosedMatch(closed, files) && OutputMatches(true, out, r, c, fs)
    ensures ClosedMatch(closed + [out], files + [fs])
    ensures OutputMatches(false, FileSet([], [], []), 0, 0, [])
  {
  }

  lemma HeadFitsOrder(s: State)
    requires s.operation == Idle ==> Ready(s)
    requires s.operation == Idle && s.queue != []
    ensures s.queue[0].OpenFile? ==> !s.fileOpened
    ensures s.queue[0].FramePackage? || s.queue[0].CloseFile? ==> s.fileOpened
  {
    OrderedHead(s.queue, s.fileOpened);
  }
}
