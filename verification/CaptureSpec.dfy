/** The recording session as a state machine: what each callback does to the package queue and to the files. */
module CaptureSpec {
  import opened RecordIndex
  import opened Options

  const MAX_CAPTURE_FRAME_LIST_LEN := 500
  const DEFAULT_INCISION_TIME := 20 * 60 * 1000

  datatype Package =
    | OpenFile(at: Clock)
    | FramePackage(frame: Frame)
    | CloseFile(at: Clock)
    | CloseSession(at: Clock)

  /** The asynchronous call whose callback the session is waiting for. */
  datatype Operation = Idle | OpeningRecord | OpeningCif | OpeningIif | Inserting | Writing | Updating

  /** What working on the queue leaves alone. */
  datatype Info = Info(
    job: bool,
    connected: bool,
    reading: bool,
    closing: bool,
    header: Option<Frame>,
    responded: bool,
    ending: bool,               // the last package has been queued
    accepted: seq<Frame>,       // every frame that entered the queue
    plan: seq<seq<Frame>>       // the same, one sequence per file asked for
  )

  datatype State = State(
    alive: bool,
    fileOpened: bool,
    queue: seq<Package>,
    startTime: Clock,
    operation: Operation,
    current: seq<Frame>,        // the frames written to the open file
    files: seq<seq<Frame>>,     // the frames of every closed file
    info: Info
  )

  datatype Event =
    | Response(at: Clock)
    | FrameIn(frame: Frame, closeAt: Clock, openAt: Clock)
    | RecordOpened
    | CifOpened
    | IifOpened
    | Inserted
    | Written
    | Updated
    | Stop
    | StreamClosed(closeAt: Clock, endAt: Clock)

  function Initial(job: bool, now: Clock): State
  {
    State(true, false, [], now, Idle, [], [], Info(job, true, true, false, None, false, false, [], []))
  }

  // ---- the steps

  /** Milliseconds from `t0` to `t1`, cut to 32 bits. */
  function DiffTime(t1: Clock, t0: Clock): int
  {
    (t1.ms - t0.ms) % 0x1_0000_0000
  }

  /** An I-frame that comes late enough after the file's start begins a new file. */
  predicate Incises(s: State, f: Frame)
  {
    IsI(f) && DiffTime(f.at, s.startTime) >= DEFAULT_INCISION_TIME
  }

  /** capture_session_close_file, and the same work at the end of capture_session_close. */
  function CloseFiles(s: State): State
  {
    if s.fileOpened then s.(fileOpened := false, files := s.files + [s.current], current := []) else s
  }

  /** capture_session_do_package_if_necessary: start on the head unless that has been done. */
  function Start(s: State): (t: State)
    ensures |t.queue| <= |s.queue| && |t.files| >= |s.files|
    ensures t.info == s.info
    decreases |s.queue|
  {
    if s.queue == [] || s.operation != Idle then s
    else
      match s.queue[0]
      case OpenFile(at) => s.(operation := OpeningRecord, startTime := at)
      case FramePackage(_) => s.(operation := Writing)
      case CloseFile(_) =>
        var c := CloseFiles(s);
        if c.info.job then c.(operation := Updating) else Start(c.(queue := c.queue[1..]))
      case CloseSession(_) => CloseFiles(s).(queue := [], alive := false)
  }

  /** A callback has come: drop the head and start on the next package. */
  function Next(s: State): State
  {
    Start(s.(queue := if s.queue == [] then [] else s.queue[1..], operation := Idle))
  }

  predicate HasRoom(s: State)
  {
    |s.queue| <= MAX_CAPTURE_FRAME_LIST_LEN
  }

  /** Room for what the closing of the stream queues: the end, and the closing of the open file before it. */
  predicate RoomForEnd(s: State)
  {
    if s.fileOpened then |s.queue| < MAX_CAPTURE_FRAME_LIST_LEN else HasRoom(s)
  }

  /** The ledger entry of a package that enters the queue. */
  function Planned(plan: seq<seq<Frame>>, p: Package): seq<seq<Frame>>
  {
    match p
    case OpenFile(_) => plan + [[]]
    case FramePackage(f) => if plan == [] then plan else plan[..|plan| - 1] + [plan[|plan| - 1] + [f]]
    case _ => plan
  }

  /** capture_session_package_add: a package that finds the queue full is ignored. */
  function Add(s: State, p: Package): State
  {
    if HasRoom(s) then
      s.(queue := s.queue + [p],
         info := s.info.(ending := s.info.ending || p.CloseSession?,
                         accepted := s.info.accepted + if p.FramePackage? then [p.frame] else [],
                         plan := Planned(s.info.plan, p)))
    else s
  }

  function AddAndStart(s: State, p: Package): State
  {
    Start(Add(s, p))
  }

  function KeepHeader(s: State, f: Frame): State
  {
    if f.kind == FRAME_TYPE_SYS_HEADER then s.(info := s.info.(header := Some(f))) else s
  }

  /** do_preview_frame's way of starting a new file: close, open, and the system header again if there is one. */
  function Incise(s: State, closeAt: Clock, openAt: Clock): State
  {
    var c := AddAndStart(s, CloseFile(closeAt));
    var o := AddAndStart(c, OpenFile(openAt));
    if o.info.header.Some? then Add(o, FramePackage(o.info.header.value)) else o
  }

  function OnFrame(s: State, f: Frame, closeAt: Clock, openAt: Clock): State
  {
    var k := KeepHeader(s, f);
    AddAndStart(if Incises(k, f) then Incise(k, closeAt, openAt) else k, FramePackage(f))
  }

  function Answered(s: State): State
  {
    s.(info := s.info.(responded := true))
  }

  function OnStreamClosed(s: State, closeAt: Clock, endAt: Clock): State
  {
    var c := if s.fileOpened then AddAndStart(s, CloseFile(closeAt)) else s;
    AddAndStart(c, CloseSession(endAt))
  }

  /** What may happen next. Files and database succeed, a file stays below 2 GiB, the server answers once and first,
      and there is room for all packages of a new file or of the end. */
  ghost predicate Enabled(s: State, e: Event)
  {
    s.alive &&
    match e
    case Response(_) => s.info.reading && !s.info.responded
    case FrameIn(f, _, _) =>
      s.info.reading && s.info.responded && Storable(f) && (Incises(s, f) ==> |s.queue| + 3 <= MAX_CAPTURE_FRAME_LIST_LEN)
    case RecordOpened => s.operation == OpeningRecord
    case CifOpened => s.operation == OpeningCif
    case IifOpened => s.operation == OpeningIif
    case Inserted => s.operation == Inserting
    case Written =>
      && s.operation == Writing && s.queue != [] && s.queue[0].FramePackage?
      && |RecordBytes(s.current)| + |s.queue[0].frame.data| < INT32_LIMIT
      && CIF_SIZE * (|s.current| + 1) < INT32_LIMIT
    case Updated => s.operation == Updating
    case Stop => s.info.connected
    case StreamClosed(_, _) => s.info.closing && !s.info.ending && RoomForEnd(s)
  }

  ghost function Step(s: State, e: Event): State
    requires Enabled(s, e)
  {
    match e
    case Response(at) => AddAndStart(Answered(s), OpenFile(at))
    case FrameIn(f, closeAt, openAt) => OnFrame(s, f, closeAt, openAt)
    case RecordOpened => s.(operation := OpeningCif)
    case CifOpened => s.(operation := OpeningIif)
    case IifOpened =>
      var o := s.(fileOpened := true);
      if o.info.job then o.(operation := Inserting) else Next(o)
    case Inserted => Next(s)
    case Written => Next(s.(current := s.current + [s.queue[0].frame]))
    case Updated => Next(s)
    case Stop => s.(info := s.info.(closing := true, reading := false, connected := false))
    case StreamClosed(closeAt, endAt) => OnStreamClosed(s, closeAt, endAt)
  }
}
