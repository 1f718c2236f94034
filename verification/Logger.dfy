/** Log files and their rotation. */
module Logger {
  import opened Arithmetic
  import opened IntegerText

  const MAX_LOGGER_FILES_LEN := 20
  const CSS_LOGGER_MAX_FILE_SIZE := 16 * 1024 * 1024
  const FIX := ".log"
  const UV_ENOENT := -2

  // ---- names

  /** strstr(…, ".log"): where the ending first occurs in a name, or -1. */
  function FixAt(name: string): (r: int)
    ensures r == -1 || 0 <= r <= |name| - 4
  {
    if |name| < 4 then -1
    else if name[..4] == FIX then 0
    else if FixAt(name[1..]) < 0 then -1 else FixAt(name[1..]) + 1
  }

  predicate IsLog(name: string)
  {
    FixAt(name) >= 0
  }

  /** The number that rotation takes a name to have. */
  function LogIndex(name: string): int
    requires IsLog(name)
  {
    Atoi(name[..FixAt(name)])
  }

  /** The i-th log's name. */
  function LogName(i: nat): string
  {
    Decimal(i) + FIX
  }

  lemma {:induction false} FixBehind(front: string)
    requires '.' !in front
    ensures FixAt(front + FIX) == |front|
  {
    var s := front + FIX;
    if front == "" {
      assert s[..4] == FIX;
    } else {
      assert s[..4][0] == front[0] && front[0] in front;
      assert s[1..] == front[1..] + FIX;
      FixBehind(front[1..]);
    }
  }

  lemma {:induction false} NoDot(n: nat)
    ensures '.' !in Decimal(n)
    decreases n
  {
    if n >= 10 {
      Smaller(n, 10);
      NoDot(n / 10);
    }
  }

  lemma SliceOfRest(name: string, j: nat)
    requires j + 5 <= |name|
    ensures name[1..][j..j + 4] == name[j + 1..j + 5]
  {
  }

  lemma {:induction false} FixThere(name: string)
    ensures FixAt(name) >= 0 ==> name[FixAt(name)..FixAt(name) + 4] == ".log"
  {
    if |name| >= 4 && name[..4] != FIX && FixAt(name[1..]) >= 0 {
      FixThere(name[1..]);
      SliceOfRest(name, FixAt(name[1..]));
    }
  }

  lemma {:induction false} FixFirst(name: string, i: nat)
    requires i + 4 <= |name| && name[i..i + 4] == ".log"
    ensures 0 <= FixAt(name) <= i
  {
    if name[..4] != FIX {
      assert i > 0;
      SliceOfRest(name, i - 1);
      FixFirst(name[1..], i - 1);
    }
  }

  /** The name has the ending exactly if it occurs, and it is where FixAt says and nowhere before. */
  lemma FixFound(name: string, i: nat)
    ensures IsLog(name) ==> 0 <= FixAt(name) && name[FixAt(name)..FixAt(name) + 4] == ".log"
    ensures i + 4 <= |name| && name[i..i + 4] == ".log" ==> IsLog(name) && FixAt(name) <= i
  {
    FixThere(name);
    if i + 4 <= |name| && name[i..i + 4] == ".log" {
      FixFirst(name, i);
    }
  }

  /** The newest log and the oldest one. */
  lemma FirstAndLast()
    ensures LogName(0) == "0.log" && LogName(19) == "19.log"
  {
    assert Decimal(19) == Decimal(1) + "9";
  }

  /** A log's name has its number. */
  lemma LogNameIndex(i: nat)
    ensures IsLog(LogName(i)) && LogIndex(LogName(i)) == i
  {
    NoDot(i);
    FixBehind(Decimal(i));
    AtoiDecimal(i, "");
    assert Decimal(i) + "" == Decimal(i) && LogName(i)[..|Decimal(i)|] == Decimal(i);
  }

  lemma NamesDiffer(i: nat, j: nat)
    ensures LogName(i) == LogName(j) <==> i == j
  {
    LogNameIndex(i);
    LogNameIndex(j);
  }

  lemma AllNamesDiffer()
    ensures forall i: nat, j: nat :: LogName(i) == LogName(j) ==> i == j
  {
    forall i: nat, j: nat
      ensures LogName(i) == LogName(j) ==> i == j
    {
      NamesDiffer(i, j);
    }
  }

  // ---- directories

  type Files = map<string, string>

  /** Some name is taken to have number i. */
  predicate Flagged(names: set<string>, i: int)
  {
    exists n <- names :: IsLog(n) && LogIndex(n) == i
  }

  /** No name is taken to have a negative number. */
  predicate NonNegative(names: set<string>)
  {
    forall n <- names :: IsLog(n) ==> LogIndex(n) >= 0
  }

  /** Every number below the limit that some name is taken to have is that of a log. */
  predicate Backed(names: set<string>)
  {
    forall i: nat :: i < MAX_LOGGER_FILES_LEN && Flagged(names, i) ==> LogName(i) in names
  }

  /** Every name with the ending is the name of a log. */
  ghost predicate Clean(names: set<string>)
  {
    forall n <- names :: IsLog(n) ==> exists i: nat :: n == LogName(i)
  }

  lemma CleanBacked(names: set<string>)
    requires Clean(names)
    ensures NonNegative(names) && Backed(names)
  {
    hide IsLog, LogIndex, LogName;
    forall n | n in names && IsLog(n)
      ensures LogIndex(n) >= 0 && n == LogName(LogIndex(n))
    {
      var i: nat :| n == LogName(i);
      LogNameIndex(i);
    }
  }

  /** A name in one directory is what another name is in another. */
  predicate Same(a: Files, m: string, b: Files, n: string)
  {
    (m in a <==> n in b) && (m in a ==> a[m] == b[n])
  }

  predicate IsNumbered(name: string)
  {
    exists i: nat :: i < MAX_LOGGER_FILES_LEN && name == LogName(i)
  }

  lemma OlderNames()
    ensures forall i: nat :: i >= 20 ==> !IsNumbered(LogName(i))
  {
    AllNamesDiffer();
    hide LogName;
  }

  /** The logs above j have moved up by one, the last of them out; j + 1 is free. */
  ghost predicate Moved(was: Files, now: Files, j: int)
  {
    && (forall i: nat :: j < i < MAX_LOGGER_FILES_LEN - 1 ==> Same(was, LogName(i), now, LogName(i + 1)))
    && (0 <= j + 1 < MAX_LOGGER_FILES_LEN ==> LogName(j + 1) !in now)
    && (forall i: nat :: i <= j ==> Same(was, LogName(i), now, LogName(i)))
    && (forall n :: !IsNumbered(n) ==> Same(was, n, now, n))
  }

  /** The directory after the j-th log has been dealt with. */
  function Shifted(now: Files, j: nat): Files
  {
    if LogName(j) !in now then now
    else if j + 1 < MAX_LOGGER_FILES_LEN then (now - {LogName(j)})[LogName(j + 1) := now[LogName(j)]]
    else now - {LogName(j)}
  }

  lemma MovedMore(was: Files, now: Files, j: nat)
    requires j < MAX_LOGGER_FILES_LEN && Moved(was, now, j)
    ensures Moved(was, Shifted(now, j), j - 1)
    ensures j + 1 < MAX_LOGGER_FILES_LEN ==> LogName(j + 1) !in now
  {
    AllNamesDiffer();
    hide LogName;
    var next := Shifted(now, j);
    assert Same(was, LogName(j), now, LogName(j));
    forall n | !IsNumbered(n)
      ensures Same(was, n, next, n)
    {
      assert n != LogName(j) && (j + 1 < MAX_LOGGER_FILES_LEN ==> n != LogName(j + 1));
      assert Same(was, n, now, n);
    }
    forall i: nat | j - 1 < i < MAX_LOGGER_FILES_LEN - 1
      ensures Same(was, LogName(i), next, LogName(i + 1))
    {
    }
    forall i: nat | i <= j - 1
      ensures Same(was, LogName(i), next, LogName(i))
    {
      assert Same(was, LogName(i), now, LogName(i));
    }
  }

  /** The walk down the logs has come to one that is only a name. */
  ghost predicate Stopped(was: Files, now: Files, j: nat)
  {
    j < MAX_LOGGER_FILES_LEN && Flagged(was.Keys, j) && LogName(j) !in was && Moved(was, now, j)
  }

  class Directory {
    var files: Files

    constructor (files: Files)
      ensures this.files == files
    {
      this.files := files;
    }

    /** uv_fs_rename: what has the new name is lost. */
    method Rename(from: string, to: string) returns (r: int)
      requires from != to
      modifies this
      ensures r == if from in old(files) then 0 else UV_ENOENT
      ensures files == if r == 0 then (old(files) - {from})[to := old(files)[from]] else old(files)
    {
      if from !in files {
        return UV_ENOENT;
      }
      files := (files - {from})[to := files[from]];
      return 0;
    }

    method Unlink(name: string) returns (r: int)
      modifies this
      ensures r == if name in old(files) then 0 else UV_ENOENT
      ensures files == old(files) - {name}
    {
      r := if name in files then 0 else UV_ENOENT;
      files := files - {name};
    }

    /** The walk over the directory's names. */
    method FindLogs() returns (ibasename: array<bool>)
      requires NonNegative(files.Keys)
      ensures fresh(ibasename) && ibasename.Length == MAX_LOGGER_FILES_LEN
      ensures forall i :: 0 <= i < MAX_LOGGER_FILES_LEN ==> (ibasename[i] <==> Flagged(files.Keys, i))
    {
      hide FixAt;
      ibasename := new bool[MAX_LOGGER_FILES_LEN](_ => false);
      var left := files.Keys;
      while left != {}
        invariant left <= files.Keys
        invariant forall i :: 0 <= i < MAX_LOGGER_FILES_LEN ==> (ibasename[i] <==> Flagged(files.Keys - left, i))
        decreases |left|
      {
        var filename :| filename in left;
        FlagMore(files.Keys, left, filename);
        if IsLog(filename) {
          var lindex := LogIndex(filename);
          if lindex < MAX_LOGGER_FILES_LEN {
            ibasename[lindex] := true;
          }
        }
        left := left - {filename};
      }
      assert files.Keys - left == files.Keys;
    }

    /** The j-th log goes one up, or out. */
    method Shift(j: nat) returns (r: int)
      requires j < MAX_LOGGER_FILES_LEN
      modifies this
      ensures files == Shifted(old(files), j)
      ensures r == if LogName(j) in old(files) then 0 else UV_ENOENT
    {
      NamesDiffer(j, j + 1);
      hide LogName;
      if j + 1 < MAX_LOGGER_FILES_LEN {
        r := Rename(LogName(j), LogName(j + 1));
      } else {
        r := Unlink(LogName(j));
      }
    }

    /** css_logger_rename_old_logs: every log goes one up and the last one out, and no log is ever written over. It fails
        exactly if a name is taken for that of a log that is not there; then the logs above that one have gone up, and the
        others are where they were. */
    method RenameOldLogs() returns (r: int)
      requires NonNegative(files.Keys)
      modifies this
      ensures r == if Backed(old(files.Keys)) then 0 else UV_ENOENT
      ensures r == 0 ==> Moved(old(files), files, -1)
      ensures r != 0 ==> exists j :: Stopped(old(files), files, j)
    {
      hide LogName, IsLog, LogIndex, Shifted;
      var ibasename := FindLogs();
      AllMoved(files);
      var lindex := MAX_LOGGER_FILES_LEN - 1;
      while lindex >= 0
        invariant -1 <= lindex < MAX_LOGGER_FILES_LEN && Moved(old(files), files, lindex)
        invariant forall i :: 0 <= i < MAX_LOGGER_FILES_LEN ==> (ibasename[i] <==> Flagged(old(files.Keys), i))
        invariant forall i: nat :: lindex < i < MAX_LOGGER_FILES_LEN && ibasename[i] ==> LogName(i) in old(files)
      {
        MovedMore(old(files), files, lindex);
        NotThere(old(files), files, lindex);
        if ibasename[lindex] {
          r := Shift(lindex);
          if r != 0 {
            assert Stopped(old(files), files, lindex);
            return;
          }
        }
        lindex := lindex - 1;
      }
      r := 0;
    }
  }

  lemma FlagMore(names: set<string>, left: set<string>, n: string)
    requires n in left && left <= names
    ensures forall i :: Flagged(names - (left - {n}), i) <==> Flagged(names - left, i) || (IsLog(n) && LogIndex(n) == i)
  {
    hide IsLog, LogIndex;
    assert names - (left - {n}) == names - left + {n};
  }

  lemma AllMoved(was: Files)
    ensures Moved(was, was, MAX_LOGGER_FILES_LEN - 1)
  {
  }

  /** A log that is there is flagged; one that is not changes nothing. */
  lemma NotThere(was: Files, now: Files, j: nat)
    requires j < MAX_LOGGER_FILES_LEN && Moved(was, now, j)
    ensures LogName(j) in now <==> LogName(j) in was
    ensures LogName(j) in was ==> Flagged(was.Keys, j)
    ensures LogName(j) !in now ==> Shifted(now, j) == now
  {
    assert Same(was, LogName(j), now, LogName(j));
    LogNameIndex(j);
  }

  /** One stray name with the ending, and no log 0: rotation fails. */
  lemma StrayName()
    ensures !Backed({"old.log"}) && NonNegative({"old.log"}) && !IsNumbered("old.log")
  {
    var n := "old.log";
    assert n[..4] == "old." && n[1..][..4] == "ld.l" && n[1..][1..][..4] == "d.lo" && n[1..][1..][1..][..4] == FIX;
    assert FixAt(n) == 3 && n[..3] == "old";
    assert Atoi("old") == 0;
    assert Flagged({n}, 0);
    assert LogName(0) == "0.log";
    hide LogName;
    forall i: nat | i < MAX_LOGGER_FILES_LEN
      ensures LogName(i) != n
    {
      LogNameIndex(i);
    }
  }

  /** So a rotation in a directory with such a name fails. */
  method StrayFails() returns (dir: Directory, r: int)
    ensures fresh(dir) && r == -2 && "old.log" in dir.files
  {
    hide FixAt, LogIndex, IsLog, LogName;
    StrayName();
    dir := new Directory(map["old.log" := ""]);
    ghost var was := dir.files;
    assert was.Keys == {"old.log"};
    r := dir.RenameOldLogs();
    ghost var j: nat :| Stopped(was, dir.files, j);
    assert Same(was, "old.log", dir.files, "old.log");
  }

  // ---- the logger

  /** The numbered files are the newest logs of the history, the newest first; no older one is left. */
  ghost predicate Holds(files: Files, history: seq<string>)
  {
    forall i: nat :: i < MAX_LOGGER_FILES_LEN ==>
      (LogName(i) in files <==> i < |history|) && (i < |history| ==> files[LogName(i)] == history[i])
  }
  /** All that the history's logs hold, the oldest first. */
  function Total(history: seq<string>): string
  {
    if history == [] then "" else Total(history[1..]) + history[0]
  }

  lemma RotationHolds(was: Files, now: Files, history: seq<string>)
    requires Moved(was, now, -1) && Holds(was, history) && Clean(was.Keys)
    ensures Clean(now.Keys) && Holds(now[LogName(0) := ""], [""] + history) && Clean(now[LogName(0) := ""].Keys)
    ensures LogName(0) !in now
  {
    AllNamesDiffer();
    hide LogName, IsLog;
    assert LogName(0) !in now;
    forall n | n in now.Keys && IsLog(n)
      ensures exists i: nat :: n == LogName(i)
    {
      if !IsNumbered(n) {
        assert Same(was, n, now, n);
        assert n in was.Keys;
      }
    }
    var next := now[LogName(0) := ""];
    forall i: nat | i < MAX_LOGGER_FILES_LEN
      ensures (LogName(i) in next <==> i < |history| + 1) && (i < |history| + 1 ==> next[LogName(i)] == ([""] + history)[i])
    {
      if i > 0 {
        var k: nat := i - 1;
        assert Same(was, LogName(k), now, LogName(k + 1));
      }
    }
  }

  class Logger {
    const dir: Directory
    var writerOffset: nat
    ghost var history: seq<string>

    ghost predicate Valid()
      reads this, dir
    {
      && Clean(dir.files.Keys) && Holds(dir.files, history)
      && history != [] && writerOffset == |history[0]| <= CSS_LOGGER_MAX_FILE_SIZE
      && forall i :: 0 < i < |history| ==> |history[i]| > CSS_LOGGER_MAX_FILE_SIZE
    }

    /** css_logger_start in an empty directory. */
    constructor (d: Directory)
      requires d.files == map[]
      modifies d
      ensures Valid() && dir == d && history == [""] && Total(history) == ""
    {
      dir := d;
      writerOffset := 0;
      history := [];
      new;
      var r := NewFile();
    }

    /** css_logger_new_file: rotate, and create log 0. */
    method NewFile() returns (r: int)
      requires Clean(dir.files.Keys) && Holds(dir.files, history)
      modifies this, dir
      ensures r == 0 && Clean(dir.files.Keys) && Holds(dir.files, history)
      ensures history == [""] + old(history) && writerOffset == 0
      ensures forall n :: !IsNumbered(n) ==> Same(old(dir.files), n, dir.files, n)
      ensures forall i: nat :: i >= 20 ==> Same(old(dir.files), LogName(i), dir.files, LogName(i))
    {
      OlderNames();
      hide LogName, IsLog, Clean, Holds;
      CleanBacked(dir.files.Keys);
      ghost var was := dir.files;
      r := dir.RenameOldLogs();
      RotationHolds(was, dir.files, history);
      if r < 0 {
        return;
      }
      writerOffset := 0;
      if LogName(0) !in dir.files {
        dir.files := dir.files[LogName(0) := ""];
      }
      history := [""] + history;
      r := 0;
      assert IsNumbered(LogName(0));
      assert forall n :: !IsNumbered(n) ==> Same(was, n, dir.files, n);
    }

    /** The write at the end of the newest log. */
    method Write(text: string)
      requires Valid()
      modifies this`history, dir
      ensures Clean(dir.files.Keys) && Holds(dir.files, history)
      ensures history == [old(history)[0] + text] + old(history)[1..]
    {
      AllNamesDiffer();
      hide LogName, IsLog;
      ghost var was := dir.files;
      dir.files := dir.files[LogName(0) := dir.files[LogName(0)] + text];
      history := [history[0] + text] + history[1..];
      assert dir.files.Keys == was.Keys;
    }

    /** css_logger_dump_to_file: the text goes to the newest log, and a log that has grown too long is rotated away. No
        run of dumps loses any text but by dropping the oldest logs. */
    method DumpToFile(text: string)
      requires Valid()
      modifies this, dir
      ensures Valid()
      ensures Total(history) == Total(old(history)) + text
      ensures history == (if |old(history)[0]| + |text| > 16777216 then [""] else []) + [old(history)[0] + text] + old(history)[1..]
      ensures forall i: nat :: i < 20 && i < |history| ==> LogName(i) in dir.files && dir.files[LogName(i)] == history[i]
    {
      hide LogName, IsLog, Clean;
      if |text| == 0 {
        assert Total(history) + text == Total(history) && history[0] + text == history[0];
        return;
      }
      ghost var was := history;
      Write(text);
      ghost var mid := history;
      writerOffset := writerOffset + |text|;
      assert mid[1..] == was[1..] && Total(was[1..]) + (was[0] + text) == Total(was[1..]) + was[0] + text;
      if writerOffset > CSS_LOGGER_MAX_FILE_SIZE {
        var r := NewFile();
        assert history[1..] == mid && Total(mid) + "" == Total(mid);
      }
    }
  }
}
