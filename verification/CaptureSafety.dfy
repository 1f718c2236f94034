/** What every run of a recording session keeps, and what is left when it ends. */
module CaptureSafety {
  import opened RecordIndex
  import opened CaptureSpec
  import opened Sequences

  function Flatten(fss: seq<seq<Frame>>): seq<Frame>
  {
    if fss == [] then [] else Flatten(fss[..|fss| - 1]) + fss[|fss| - 1]
  }

  /** The frames waiting in a queue. */
  function FramesOf(q: seq<Package>): seq<Frame>
  {
    if q == [] then []
    else FramesOf(q[..|q| - 1]) + if q[|q| - 1].FramePackage? then [q[|q| - 1].frame] else []
  }

  /** Whether a file is open once the queue has been worked off. */
  ghost predicate OpenAfter(q: seq<Package>, open: bool)
  {
    if q == [] then open
    else if q[|q| - 1].OpenFile? then true
    else if q[|q| - 1].FramePackage? then OpenAfter(q[..|q| - 1], open)
    else false
  }

  /** Files are opened and closed in turn, frames come while one is open, and nothing comes after the end. */
  ghost predicate Ordered(q: seq<Package>, open: bool)
  {
    if q == [] then true
    else
      var before := q[..|q| - 1];
      && Ordered(before, open)
      && (before != [] ==> !before[|before| - 1].CloseSession?)
      && match q[|q| - 1]
         case OpenFile(_) => !OpenAfter(before, open)
         case FramePackage(_) => OpenAfter(before, open)
         case CloseFile(_) => OpenAfter(before, open)
         case CloseSession(_) => true
  }

  /** The files that come of working off the queue, starting from frames `cur` in an open file. */
  ghost function FilesOf(q: seq<Package>, open: bool, cur: seq<Frame>): seq<seq<Frame>>
  {
    if q == [] then (if open then [cur] else [])
    else
      Planned(FilesOf(q[..|q| - 1], open, cur), q[|q| - 1])
  }

  // ---- the same, seen from the head of the queue

  lemma {:induction false} FramesOfHead(q: seq<Package>)
    requires q != []
    ensures FramesOf(q) == (if q[0].FramePackage? then [q[0].frame] else []) + FramesOf(q[1..])
  {
    if |q| > 1 {
      FramesOfHead(q[..|q| - 1]);
      assert q[1..][..|q| - 2] == q[..|q| - 1][1..];
      assert q[..|q| - 1][0] == q[0];
    } else {
      assert FramesOf(q[..0]) == [];
    }
  }

  ghost predicate OpenAfterHead(p: Package, open: bool)
  {
    match p
    case OpenFile(_) => true
    case FramePackage(_) => open
    case _ => false
  }

  lemma {:induction false} OpenAfterTail(q: seq<Package>, open: bool)
    requires q != []
    ensures OpenAfter(q, open) == OpenAfter(q[1..], OpenAfterHead(q[0], open))
  {
    if |q| > 1 {
      OpenAfterTail(q[..|q| - 1], open);
      assert q[1..][..|q| - 2] == q[..|q| - 1][1..];
    } else {
      assert OpenAfter(q[..0], open) == open;
    }
  }

  lemma {:induction false} OrderedHead(q: seq<Package>, open: bool)
    requires q != [] && Ordered(q, open)
    ensures q[0].OpenFile? ==> !open
    ensures q[0].FramePackage? || q[0].CloseFile? ==> open
    ensures q[0].CloseSession? ==> |q| == 1
    ensures Ordered(q[1..], OpenAfterHead(q[0], open))
  {
    if |q| > 1 {
      var before := q[..|q| - 1];
      OrderedHead(before, open);
      OpenAfterTail(before, open);
      assert q[1..][..|q| - 2] == before[1..];
      if before[1..] != [] {
        assert before[1..][|q| - 3] == before[|q| - 2];
      }
    } else {
      assert q[..0] == [];
      assert OpenAfter(q[..0], open) == open;
    }
  }

  /** What working off the head adds to the closed files, and what then is in the open one. */
  ghost function ClosedBy(p: Package, open: bool, cur: seq<Frame>): seq<seq<Frame>>
  {
    if (p.CloseFile? || p.CloseSession?) && open then [cur] else []
  }

  ghost function CurrentAfter(p: Package, cur: seq<Frame>): seq<Frame>
  {
    if p.FramePackage? then cur + [p.frame] else []
  }

  lemma PlannedBehind(a: seq<seq<Frame>>, b: seq<seq<Frame>>, p: Package)
    requires b != [] || !p.FramePackage?
    ensures Planned(a + b, p) == a + Planned(b, p)
  {
    if p.FramePackage? {
      assert (a + b)[..|a + b| - 1] == a + b[..|b| - 1];
    }
  }

  lemma {:induction false} FilesNonempty(q: seq<Package>, open: bool, cur: seq<Frame>)
    requires OpenAfter(q, open)
    ensures FilesOf(q, open, cur) != []
  {
    if q != [] && q[|q| - 1].FramePackage? {
      FilesNonempty(q[..|q| - 1], open, cur);
    }
  }

  lemma {:induction false} FilesHead(q: seq<Package>, open: bool, cur: seq<Frame>)
    requires q != [] && Ordered(q, open)
    ensures FilesOf(q, open, cur)
         == ClosedBy(q[0], open, cur) + FilesOf(q[1..], OpenAfterHead(q[0], open), CurrentAfter(q[0], cur))
  {
    var p, n := q[0], |q| - 1;
    OrderedHead(q, open);
    if n > 0 {
      FilesHead(q[..n], open, cur);
      assert q[1..][..n - 1] == q[..n][1..];
      OpenAfterTail(q[..n], open);
      var rest := FilesOf(q[..n][1..], OpenAfterHead(p, open), CurrentAfter(p, cur));
      if q[n].FramePackage? {
        FilesNonempty(q[..n][1..], OpenAfterHead(p, open), CurrentAfter(p, cur));
      }
      PlannedBehind(ClosedBy(p, open, cur), rest, q[n]);
    } else {
      assert q[..0] == [] && q[1..] == [];
      var none := FilesOf(q[..0], open, cur);
      assert none == if open then [cur] else [];
      assert FilesOf(q, open, cur) == Planned(none, p);
    }
  }

  // ---- the invariant

  /** The part of the queue whose work has not yet shown in the files. */
  ghost function RestQueue(s: State): seq<Package>
  {
    if s.queue != [] && (s.operation == Updating || s.operation == Inserting) then s.queue[1..] else s.queue
  }

  ghost predicate FilesAgree(s: State, q: seq<Package>)
  {
    && QueueAgrees(q, s.fileOpened, s.current, s.info.ending)
    && s.info.plan == s.files + FilesOf(q, s.fileOpened, s.current)
    && s.info.accepted == Flatten(s.files) + s.current + FramesOf(q)
  }

  ghost predicate QueueAgrees(q: seq<Package>, open: bool, cur: seq<Frame>, ending: bool)
  {
    && Ordered(q, open)
    && (!open ==> cur == [])
    && (ending <==> q != [] && q[|q| - 1].CloseSession?)
  }

  /** The head, and only the head, is being worked on, by the operation that its kind and stage call for. */
  ghost predicate Busy(s: State)
  {
    if s.queue == [] then s.operation == Idle
    else
      match s.queue[0]
      case OpenFile(_) =>
        if s.operation == Inserting then s.info.job && s.fileOpened && s.current == []
        else (s.operation == OpeningRecord || s.operation == OpeningCif || s.operation == OpeningIif) && !s.fileOpened
      case FramePackage(_) => s.operation == Writing && s.fileOpened
      case CloseFile(_) => s.operation == Updating && s.info.job && !s.fileOpened
      case CloseSession(_) => false
  }

  /** All frames are in closed files, and there is one closed file per file asked for. */
  ghost predicate Ended(s: State)
  {
    && s.queue == [] && s.operation == Idle && !s.fileOpened && s.current == [] && s.info.ending
    && s.files == s.info.plan
    && s.info.accepted == Flatten(s.files)
  }

  ghost predicate Inv(s: State)
  {
    if s.alive then Busy(s) && FilesAgree(s, RestQueue(s)) else Ended(s)
  }

  /** As Inv, just before work on the head begins. */
  ghost predicate Ready(s: State)
  {
    s.alive && s.operation == Idle && FilesAgree(s, s.queue)
  }

  /** Whether the session ends with a file open if nothing more is queued. */
  ghost predicate WillBeOpen(s: State)
  {
    OpenAfter(RestQueue(s), s.fileOpened)
  }

  lemma FlattenOne(fss: seq<seq<Frame>>, fs: seq<Frame>)
    ensures Flatten(fss + [fs]) == Flatten(fss) + fs
  {
    assert (fss + [fs])[..|fss|] == fss;
  }

  /** The queue without its head. */
  lemma QueueTail(q: seq<Package>, open: bool, cur: seq<Frame>, ending: bool)
    requires QueueAgrees(q, open, cur, ending) && q != [] && !q[0].CloseSession?
    ensures QueueAgrees(q[1..], OpenAfterHead(q[0], open), CurrentAfter(q[0], cur), ending)
    ensures OpenAfter(q[1..], OpenAfterHead(q[0], open)) == OpenAfter(q, open)
  {
    OrderedHead(q, open);
    OpenAfterTail(q, open);
    if |q| > 1 {
      assert q[1..][|q| - 2] == q[|q| - 1];
    }
  }

  /** Working off the head turns no file into another. */
  lemma HeadKeepsFiles(q: seq<Package>, open: bool, cur: seq<Frame>, files: seq<seq<Frame>>)
    requires Ordered(q, open) && q != []
    ensures files + FilesOf(q, open, cur)
         == files + ClosedBy(q[0], open, cur) + FilesOf(q[1..], OpenAfterHead(q[0], open), CurrentAfter(q[0], cur))
  {
    FilesHead(q, open, cur);
  }

  /** Working off the head moves frames from the queue to the files and loses none. */
  lemma HeadKeepsFrames(q: seq<Package>, open: bool, cur: seq<Frame>, files: seq<seq<Frame>>)
    requires Ordered(q, open) && q != [] && (!open ==> cur == [])
    ensures Flatten(files) + cur + FramesOf(q)
         == Flatten(files + ClosedBy(q[0], open, cur)) + CurrentAfter(q[0], cur) + FramesOf(q[1..])
  {
    hide FramesOf, Flatten, Ordered, OpenAfter;
    OrderedHead(q, open);
    FramesOfHead(q);
    FlattenOne(files, cur);
    assert files + [] == files;
    var first := if q[0].FramePackage? then [q[0].frame] else [];
    Regroup(Flatten(files), cur, first, FramesOf(q[1..]));
  }

  /** The step from one package to the next. */
  lemma HeadDone(s: State, t: State)
    requires FilesAgree(s, s.queue) && s.queue != [] && !s.queue[0].CloseSession?
    requires t.queue == s.queue[1..] && t.fileOpened == OpenAfterHead(s.queue[0], s.fileOpened)
    requires t.current == CurrentAfter(s.queue[0], s.current)
    requires t.files == s.files + ClosedBy(s.queue[0], s.fileOpened, s.current)
    requires t.info == s.info
    ensures FilesAgree(t, t.queue)
    ensures OpenAfter(t.queue, t.fileOpened) == OpenAfter(s.queue, s.fileOpened)
  {
    hide FilesOf, FramesOf, Flatten, Ordered, OpenAfter;
    QueueTail(s.queue, s.fileOpened, s.current, s.info.ending);
    HeadKeepsFiles(s.queue, s.fileOpened, s.current, s.files);
    HeadKeepsFrames(s.queue, s.fileOpened, s.current, s.files);
  }

  lemma LastPackage(s: State)
    requires Ready(s) && s.queue != [] && s.queue[0].CloseSession?
    ensures Ended(Start(s)) && !Start(s).alive && s.info.ending && Start(s).info == s.info
  {
    OrderedHead(s.queue, s.fileOpened);
    HeadKeepsFiles(s.queue, s.fileOpened, s.current, s.files);
    HeadKeepsFrames(s.queue, s.fileOpened, s.current, s.files);
    assert s.queue[1..] == [];
  }

  /** The files are closed at once; what is left is the row in the database. */
  lemma ClosePackage(s: State, t: State)
    requires Ready(s) && s.queue != [] && s.queue[0].CloseFile?
    requires t == CloseFiles(s).(queue := s.queue[1..])
    ensures Ready(t) && t.info == s.info
    ensures OpenAfter(t.queue, t.fileOpened) == OpenAfter(s.queue, s.fileOpened)
    ensures s.info.job ==> Start(s) == t.(queue := s.queue, operation := Updating) && Inv(Start(s)) && RestQueue(Start(s)) == t.queue
    ensures !s.info.job ==> Start(s) == Start(t)
  {
    hide FilesOf, FramesOf, Flatten, OpenAfter;
    OrderedHead(s.queue, s.fileOpened);
    hide Ordered;
    HeadDone(s, t);
  }

  lemma WorkBegins(s: State)
    requires Ready(s)
    requires s.queue == [] || s.queue[0].OpenFile? || s.queue[0].FramePackage?
    ensures Inv(Start(s)) && Start(s).info == s.info
    ensures Start(s).alive && WillBeOpen(Start(s)) == OpenAfter(s.queue, s.fileOpened)
  {
    hide FilesOf, FramesOf, Flatten, OpenAfter;
    if s.queue != [] {
      OrderedHead(s.queue, s.fileOpened);
    }
  }

  lemma {:induction false} StartKeeps(s: State)
    requires Ready(s)
    ensures Inv(Start(s)) && Start(s).info == s.info
    ensures Start(s).alive ==> WillBeOpen(Start(s)) == OpenAfter(s.queue, s.fileOpened)
    ensures Start(s).alive || s.info.ending
    decreases |s.queue|
  {
    hide Start, FilesOf, FramesOf, Flatten, Ordered, OpenAfter;
    if s.queue != [] && s.queue[0].CloseFile? {
      var t := CloseFiles(s).(queue := s.queue[1..]);
      ClosePackage(s, t);
      if !s.info.job {
        StartKeeps(t);
      }
    } else if s.queue != [] && s.queue[0].CloseSession? {
      LastPackage(s);
    } else {
      WorkBegins(s);
    }
  }

  /** What a package needs of the queue that it joins. */
  ghost predicate Fits(s: State, p: Package)
  {
    match p
    case OpenFile(_) => !WillBeOpen(s)
    case FramePackage(_) => WillBeOpen(s)
    case CloseFile(_) => WillBeOpen(s)
    case CloseSession(_) => true
  }

  /** A package at the end of the queue. */
  lemma QueueLonger(q: seq<Package>, open: bool, cur: seq<Frame>, p: Package)
    requires QueueAgrees(q, open, cur, false)
    requires p.OpenFile? ==> !OpenAfter(q, open)
    requires p.FramePackage? || p.CloseFile? ==> OpenAfter(q, open)
    ensures QueueAgrees(q + [p], open, cur, p.CloseSession?)
    ensures OpenAfter(q + [p], open) == (p.OpenFile? || p.FramePackage?)
    ensures FilesOf(q + [p], open, cur) == Planned(FilesOf(q, open, cur), p)
    ensures FramesOf(q + [p]) == FramesOf(q) + if p.FramePackage? then [p.frame] else []
  {
    var t := q + [p];
    assert t[..|t| - 1] == q;
  }

  lemma JoinsBehind(s: State, q: seq<Package>, p: Package)
    requires FilesAgree(s, q) && !s.info.ending && HasRoom(s)
    requires p.OpenFile? ==> !OpenAfter(q, s.fileOpened)
    requires p.FramePackage? || p.CloseFile? ==> OpenAfter(q, s.fileOpened)
    ensures FilesAgree(Add(s, p), q + [p])
    ensures OpenAfter(q + [p], s.fileOpened) == (p.OpenFile? || p.FramePackage?)
  {
    QueueLonger(q, s.fileOpened, s.current, p);
    if p.FramePackage? {
      FilesNonempty(q, s.fileOpened, s.current);
    }
    Added(s, p);
    hide FilesOf, FramesOf, Flatten, Ordered, OpenAfter, Add, Planned;
    PlannedBehind(s.files, FilesOf(q, s.fileOpened, s.current), p);
  }

  lemma Added(s: State, p: Package)
    requires HasRoom(s)
    ensures var t := Add(s, p);
            && t.files == s.files && t.fileOpened == s.fileOpened && t.current == s.current
            && t.info.ending == (s.info.ending || p.CloseSession?) && t.info.plan == Planned(s.info.plan, p)
            && t.info.accepted == s.info.accepted + if p.FramePackage? then [p.frame] else []
  {
  }

  lemma RestLonger(s: State, p: Package)
    requires s.queue != [] && HasRoom(s)
    ensures RestQueue(Add(s, p)) == RestQueue(s) + [p]
  {
    assert (s.queue + [p])[1..] == s.queue[1..] + [p];
  }

  lemma AddKeeps(s: State, p: Package)
    requires Inv(s) && s.alive && !s.info.ending && HasRoom(s) && Fits(s, p)
    ensures s.queue != [] ==> Inv(Add(s, p)) && WillBeOpen(Add(s, p)) == (p.OpenFile? || p.FramePackage?)
    ensures s.queue == [] ==> Ready(Add(s, p))
                              && OpenAfter(Add(s, p).queue, s.fileOpened) == (p.OpenFile? || p.FramePackage?)
  {
    hide FilesOf, FramesOf, Flatten, Ordered, OpenAfter;
    JoinsBehind(s, RestQueue(s), p);
    if s.queue != [] {
      RestLonger(s, p);
    } else {
      assert RestQueue(s) + [p] == Add(s, p).queue;
    }
  }

  lemma AddAndStartKeeps(s: State, p: Package)
    requires Inv(s) && s.alive && !s.info.ending && HasRoom(s) && Fits(s, p)
    ensures Inv(AddAndStart(s, p)) && AddAndStart(s, p).info == Add(s, p).info
    ensures AddAndStart(s, p).alive || p.CloseSession?
    ensures AddAndStart(s, p).alive ==> WillBeOpen(AddAndStart(s, p)) == (p.OpenFile? || p.FramePackage?)
    ensures |AddAndStart(s, p).queue| <= |s.queue| + 1
  {
    hide FilesOf, FramesOf, Flatten, Ordered, OpenAfter;
    AddKeeps(s, p);
    if s.queue == [] {
      StartKeeps(Add(s, p));
    }
  }
}
