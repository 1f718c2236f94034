/** Deleting the oldest recordings of a disk until there is room again. */
module ClearDisk {
  import opened CString
  import opened Sequences
  import opened TimeText

  const CSS_CLEAR_MIN_HOUR := 2
  const MAX_PATH := 256

  // ---- the passes

  /** How many hours back the next pass goes. */
  function Next(time: int): int
  {
    if time > 24 then time - 24 else time - 1
  }

  function TimeAt(time: int, i: nat): int
    decreases i
  {
    if i == 0 then time else TimeAt(Next(time), i - 1)
  }

  /** The usage before pass i: as found at first, then as read after the pass before. */
  function UsedAt(used: int, usage: nat -> int, i: nat): int
  {
    if i == 0 then used else usage(i - 1)
  }

  /** The number of passes, if k have been made. */
  function Passes(time: int, used: int, max: int, usage: nat -> int, k: nat): nat
    decreases if time >= CSS_CLEAR_MIN_HOUR then time else 0
  {
    if used > max && time >= CSS_CLEAR_MIN_HOUR then 1 + Passes(Next(time), usage(k), max, usage, k + 1) else 0
  }

  /** How many passes fit between `time` hours back and the limit. */
  function Room(time: int): nat
    decreases if time >= CSS_CLEAR_MIN_HOUR then time else 0
  {
    if time < CSS_CLEAR_MIN_HOUR then 0 else 1 + Room(Next(time))
  }

  lemma {:induction false} RoomHours(time: nat)
    requires time <= 24
    ensures Room(time) == if time < 2 then 0 else time - 1
  {
    if time >= 2 {
      RoomHours(time - 1);
    }
  }

  /** Whole days, then the hours of the last one: d + 22 passes. */
  lemma {:induction false} RoomDays(d: nat)
    requires d >= 1
    ensures Room(d * 24) == d + 22
  {
    if d == 1 {
      RoomHours(24);
    } else {
      RoomDays(d - 1);
    }
  }

  /** Pass i goes back by so many hours: d days, a day less each time, and in the last day an hour less. */
  lemma {:induction false} HoursOf(d: nat, i: nat)
    requires d >= 1 && i < d + 22
    ensures TimeAt(d * 24, i) == if i < d then 24 * (d - i) else 23 - (i - d)
    decreases i
  {
    if i > 0 {
      if d == 1 {
        HoursDown(23, i - 1);
      } else {
        HoursOf(d - 1, i - 1);
      }
    }
  }

  lemma {:induction false} HoursDown(h: int, i: nat)
    requires h <= 24
    ensures TimeAt(h, i) == h - i
    decreases i
  {
    if i > 0 {
      HoursDown(h - 1, i - 1);
    }
  }

  lemma {:induction false} TimeAtRoom(time: int, i: nat)
    ensures i < Room(time) <==> TimeAt(time, i) >= CSS_CLEAR_MIN_HOUR
    decreases i
  {
    if i > 0 {
      TimeAtRoom(Next(time), i - 1);
      if time < CSS_CLEAR_MIN_HOUR {
        assert Room(Next(time)) == 0;
      }
    }
  }

  /** The passes stop at the first reading within the limit, or when no room is left. */
  lemma {:induction false} PassesMean(time: int, used: int, max: int, usage: nat -> int, k: nat)
    ensures var n := Passes(time, used, max, usage, k);
            && n <= Room(time)
            && (n > 0 ==> used > max && forall i :: k <= i < k + n - 1 ==> usage(i) > max)
            && (n < Room(time) ==> (if n == 0 then used else usage(k + n - 1)) <= max)
    decreases if time >= CSS_CLEAR_MIN_HOUR then time else 0
  {
    if used > max && time >= CSS_CLEAR_MIN_HOUR {
      PassesMean(Next(time), usage(k), max, usage, k + 1);
    }
  }

  /** What css_clear_disk returns: -1 once the hours have run down, whatever the disk's usage then is. */
  function Code(d: int, used: int, max: int, usage: nat -> int): int
  {
    if TimeAt(d * 24, Passes(d * 24, used, max, usage, 0)) < CSS_CLEAR_MIN_HOUR then -1 else 0
  }

  /** Clearing from d days on makes at most d + 22 passes, starts each only while usage exceeds the limit, and succeeds
      exactly if usage is within the limit at first or is so after one of the passes but the last. */
  lemma CodeIff(d: nat, used: int, max: int, usage: nat -> int)
    requires d >= 1
    ensures var n := Passes(d * 24, used, max, usage, 0);
            && n <= d + 22 && (n < d + 22 ==> (if n == 0 then used else usage(n - 1)) <= max)
            && (forall i :: 0 <= i < n ==> UsedAt(used, usage, i) > max)
            && Code(d, used, max, usage) == (if n < d + 22 then 0 else -1)
            && (Code(d, used, max, usage) == 0 <==> exists i :: 0 <= i < d + 22 && UsedAt(used, usage, i) <= max)
  {
    var n := Passes(d * 24, used, max, usage, 0);
    RoomDays(d);
    PassesMean(d * 24, used, max, usage, 0);
    TimeAtRoom(d * 24, n);
    assert n < d + 22 ==> UsedAt(used, usage, n) <= max;
    assert forall i :: 0 <= i < n ==> UsedAt(used, usage, i) > max;
  }

  /** The last pass can make room and the call still fail. */
  lemma FailsWithRoom()
    ensures var usage := (i: nat) => if i < 22 then 100 else 0;
            && Passes(24, 100, 85, usage, 0) == 23 && UsedAt(100, usage, 23) <= 85 && Code(1, 100, 85, usage) == -1
  {
    hide Passes, Room, TimeAt;
    var usage := (i: nat) => if i < 22 then 100 else 0;
    var n := Passes(24, 100, 85, usage, 0);
    CodeIff(1, 100, 85, usage);
    PassesMean(24, 100, 85, usage, 0);
    RoomDays(1);
    assert forall i :: 0 <= i < 23 ==> UsedAt(100, usage, i) == 100;
  }

  /** With no days to keep, nothing is deleted and the call fails at once. */
  lemma FailsWithoutDays(used: int, max: int, usage: nat -> int)
    ensures Passes(0, used, max, usage, 0) == 0 && Code(0, used, max, usage) == -1
  {
    assert TimeAt(0, Passes(0, used, max, usage, 0)) == 0;
  }

  // ---- file names

  function LastDot(s: string): (k: int)
    ensures -1 <= k < |s| && (k >= 0 ==> s[k] == '.') && forall i :: k < i < |s| ==> s[i] != '.'
  {
    if s == "" then -1 else if s[|s| - 1] == '.' then |s| - 1 else LastDot(s[..|s| - 1])
  }

  /** The name with the text after its last dot replaced; without a dot, with the text added. */
  function Renamed(s: string, filetype: string): string
  {
    if s == "" then "" else if LastDot(s) >= 0 then s[..LastDot(s) + 1] + filetype else s + filetype
  }

  lemma RenamedLength(s: string, filetype: string)
    ensures |Renamed(s, filetype)| <= |s| + |filetype|
  {
  }

  lemma LastDotIs(s: string, k: int)
    requires -1 <= k < |s| && (k >= 0 ==> s[k] == '.') && forall i :: k < i < |s| ==> s[i] != '.'
    ensures LastDot(s) == k
  {
  }

  /** change_filename: the type of the name in the buffer is changed in place. */
  method ChangeFilename(filename: array<char>, filetype: string) returns (r: int)
    requires Terminated(filename[..]) && '\0' !in filetype
    requires |CText(filename[..])| + |filetype| < filename.Length
    modifies filename
    ensures Terminated(filename[..]) && CText(filename[..]) == Renamed(old(CText(filename[..])), filetype)
    ensures r == if old(CText(filename[..])) == "" then -1 else 0
  {
    ghost var name := CText(filename[..]);
    var n := Strlen(filename);
    assert filename[..n] == name;
    if n == 0 {
      return -1;
    }
    var i, end := n - 1, n;
    while i >= 0
      invariant -1 <= i < n && end == n
      invariant forall j :: i < j < n ==> name[j] != '.'
    {
      if filename[i] == '.' {
        end := i + 1;
        break;
      }
      i := i - 1;
    }
    LastDotIs(name, i);
    assert filename[..end] == name[..end];
    Put(filename, end, filetype);
    r := 0;
  }

  // ---- the recordings and their rows

  /** A row of the table of recordings. */
  datatype Row = Row(id: nat, fileName: string, volume: string, begin: string)

  /** A file name that leaves room for the changed type in the source's buffer. */
  predicate Storable(r: Row)
  {
    '\0' !in r.fileName && |r.fileName| + 6 < MAX_PATH
  }

  /** The recording's file, and those of its indexes. */
  function Names(r: Row): set<string>
  {
    {r.fileName, Renamed(r.fileName, "iif"), Renamed(Renamed(r.fileName, "iif"), "cif")}
  }

  /** The names that a recording gives its three files. */
  function Recorded(base: string): set<string>
  {
    {base + ".mp4", base + ".iif", base + ".cif"}
  }

  /** What a text becomes: the type is put behind its last dot, or at its end if it has none. */
  lemma RenamedIs(front: string, back: string, filetype: string)
    requires '.' !in back
    ensures Renamed(front + "." + back, filetype) == front + "." + filetype
    ensures Renamed(back, filetype) == if back == "" then "" else back + filetype
  {
    RenamedBase(front, back, filetype);
    NoDots(back);
  }

  lemma {:induction false} NoDots(s: string)
    requires '.' !in s
    ensures LastDot(s) == -1
  {
    if s != "" {
      assert s[|s| - 1] in s;
      NoDots(s[..|s| - 1]);
    }
  }

  lemma RenamedBase(base: string, oldtype: string, filetype: string)
    requires '.' !in oldtype
    ensures Renamed(base + "." + oldtype, filetype) == base + "." + filetype
  {
    var s := base + "." + oldtype;
    assert s[|base|] == '.' && forall i :: |base| < i < |s| ==> s[i] == oldtype[i - |base| - 1];
    LastDotIs(s, |base|);
    assert s[..|base| + 1] == base + ".";
  }

  /** From the row of a recording the clearing finds the files that the recording made, whatever dots the path has. */
  lemma NamesRecorded(r: Row, base: string)
    requires r.fileName == base + ".mp4"
    ensures Names(r) == Recorded(base)
  {
    assert base + ".mp4" == base + "." + "mp4" && base + ".iif" == base + "." + "iif" && base + ".cif" == base + "." + "cif";
    RenamedBase(base, "mp4", "iif");
    RenamedBase(base, "iif", "cif");
  }

  /** And none of another recording. */
  lemma RecordedApart(a: string, b: string)
    requires a != b
    ensures Recorded(a) !! Recorded(b)
  {
    forall x, y: string | |x| == 4 && |y| == 4
      ensures a + x != b + y
    {
      assert (a + x)[..|a|] == a && (b + y)[..|b|] == b;
    }
  }

  function AllNames(rs: seq<Row>): set<string>
  {
    set r, n | r in rs && n in Names(r) :: n
  }

  function Ids(rs: seq<Row>): set<nat>
  {
    set r | r in rs :: r.id
  }

  predicate UniqueIds(rs: seq<Row>)
  {
    forall a, b :: a in rs && b in rs && a.id == b.id ==> a == b
  }

  /** The row is of this volume and begins before one of the cut times. */
  predicate Doomed(r: Row, volume: string, cuts: seq<string>)
  {
    r.volume == volume && exists c <- cuts :: Less(r.begin, c)
  }

  function IsDoomed(volume: string, cuts: seq<string>): Row -> bool
  {
    (r: Row) => Doomed(r, volume, cuts)
  }

  function IsSpared(volume: string, cut: string): Row -> bool
  {
    (r: Row) => !(r.volume == volume && Less(r.begin, cut))
  }

  function HasId(ids: set<nat>): Row -> bool
  {
    (r: Row) => r.id in ids
  }

  /** The rows that the cuts leave. */
  function Spared(rs: seq<Row>, volume: string, cuts: seq<string>): seq<Row>
  {
    Kept(rs, IsDoomed(volume, cuts))
  }

  function Chosen(rs: seq<Row>, volume: string, cut: string): seq<Row>
  {
    Kept(rs, IsSpared(volume, cut))
  }

  function WithoutIds(rs: seq<Row>, ids: set<nat>): seq<Row>
  {
    Kept(rs, HasId(ids))
  }

  lemma WithoutMore(rs: seq<Row>, ids: set<nat>, more: set<nat>)
    ensures WithoutIds(WithoutIds(rs, ids), more) == WithoutIds(rs, ids + more)
  {
    KeptTwice(rs, HasId(ids), HasId(more), HasId(ids + more));
  }

  class Store {
    var rows: seq<Row>
    var files: set<string>

    constructor (rs: seq<Row>, names: set<string>)
      ensures rows == rs && files == names
    {
      rows, files := rs, names;
    }

    /** The query by begin time and volume. */
    method Select(cut: string, volume: string) returns (list: seq<Row>)
      ensures list == Chosen(rows, volume, cut)
    {
      list := [];
      var i := 0;
      ghost var drop := IsSpared(volume, cut);
      while i < |rows|
        invariant 0 <= i <= |rows| && list == Kept(rows[..i], drop)
      {
        KeptMore(rows[..i], drop, rows[i]);
        assert rows[..i + 1] == rows[..i] + [rows[i]];
        if rows[i].volume == volume && Less(rows[i].begin, cut) {
          list := list + [rows[i]];
        }
        i := i + 1;
      }
      assert rows[..i] == rows;
    }

    method DeleteById(id: nat)
      modifies this`rows
      ensures rows == WithoutIds(old(rows), {id})
    {
      var left := [];
      var i := 0;
      ghost var drop := HasId({id});
      while i < |rows|
        invariant 0 <= i <= |rows| && rows == old(rows) && left == Kept(rows[..i], drop)
      {
        KeptMore(rows[..i], drop, rows[i]);
        assert rows[..i + 1] == rows[..i] + [rows[i]];
        if rows[i].id != id {
          left := left + [rows[i]];
        }
        i := i + 1;
      }
      assert rows[..i] == rows;
      rows := left;
    }

    method Unlink(name: string)
      modifies this`files
      ensures files == old(files) - {name}
    {
      files := files - {name};
    }

    /** The files of one recording, and its row. */
    method Remove(r: Row)
      requires Storable(r)
      modifies this
      ensures rows == WithoutIds(old(rows), {r.id}) && files == old(files) - Names(r)
    {
      hide Renamed, Terminated, CText, First;
      RenamedLength(r.fileName, "iif");
      Unlink(r.fileName);
      var tmpName := new char[MAX_PATH];
      Put(tmpName, 0, r.fileName);
      assert r.fileName == [] + r.fileName;
      var reply := ChangeFilename(tmpName, "iif");
      Unlink(CText(tmpName[..]));
      reply := ChangeFilename(tmpName, "cif");
      Unlink(CText(tmpName[..]));
      DeleteById(r.id);
    }

    /** The walk over the list of rows. */
    method RemoveAll(list: seq<Row>)
      requires forall r <- list :: Storable(r)
      modifies this
      ensures rows == WithoutIds(old(rows), Ids(list)) && files == old(files) - AllNames(list)
    {
      var i := 0;
      NoneRemoved(rows);
      while i < |list|
        invariant 0 <= i <= |list|
        invariant rows == WithoutIds(old(rows), Ids(list[..i])) && files == old(files) - AllNames(list[..i])
      {
        assert list[..i + 1] == list[..i] + [list[i]];
        Remove(list[i]);
        WithoutMore(old(rows), Ids(list[..i]), {list[i].id});
        assert Ids(list[..i + 1]) == Ids(list[..i]) + {list[i].id};
        assert AllNames(list[..i + 1]) == AllNames(list[..i]) + Names(list[i]);
        i := i + 1;
      }
      assert list[..i] == list;
    }
  }

  lemma NoneRemoved(rs: seq<Row>)
    ensures Ids([]) == {} && AllNames([]) == {} && WithoutIds(rs, {}) == rs
  {
    KeptAll(rs, HasId({}));
  }

  // ---- clearing a disk

  datatype Moment = Moment(sec: int, ms: nat)

  /** The time text before which a pass deletes, `time` hours before `now`. */
  function Cut(cal: int -> seq<nat>, now: Moment, time: int): string
    requires forall s :: |cal(s)| == 6
  {
    Stamp(cal, now.sec - time * 3600, now.ms)
  }

  /** The cut times of the first n passes. */
  function Cuts(cal: int -> seq<nat>, now: nat -> Moment, time: int, n: nat): (cuts: seq<string>)
    requires forall s :: |cal(s)| == 6
    ensures |cuts| == n
  {
    seq(n, i requires 0 <= i < n => Cut(cal, now(i), TimeAt(time, i)))
  }

  /** The rows listed so far are those of R that the cuts so far doom; they and their files are gone. */
  ghost predicate Cleared(store: Store, R: seq<Row>, F: set<string>, volume: string, cuts: seq<string>, list: seq<Row>)
    reads store
  {
    && (forall r <- list :: r in R && Doomed(r, volume, cuts))
    && (forall r <- R :: Doomed(r, volume, cuts) ==> r in list)
    && store.rows == WithoutIds(R, Ids(list)) && store.files == F - AllNames(list)
  }

  lemma DoomedMore(r: Row, volume: string, cuts: seq<string>, cut: string)
    ensures Doomed(r, volume, cuts + [cut]) <==> Doomed(r, volume, cuts) || (r.volume == volume && Less(r.begin, cut))
  {
    if r.volume == volume && Less(r.begin, cut) {
      assert (cuts + [cut])[|cuts|] == cut;
    }
    if Doomed(r, volume, cuts) {
      var c :| c in cuts && Less(r.begin, c);
      assert c in cuts + [cut];
    }
  }

  /** A pass selects what the new cut dooms beyond what is gone already. */
  lemma ListMore(R: seq<Row>, volume: string, cuts: seq<string>, cut: string, list: seq<Row>)
    requires UniqueIds(R)
    requires forall r <- list :: r in R && Doomed(r, volume, cuts)
    requires forall r <- R :: Doomed(r, volume, cuts) ==> r in list
    ensures var more := list + Chosen(WithoutIds(R, Ids(list)), volume, cut);
            && (forall r <- more :: r in R && Doomed(r, volume, cuts + [cut]))
            && (forall r <- R :: Doomed(r, volume, cuts + [cut]) ==> r in more)
  {
    hide Doomed, Less, Kept;
    var rows := WithoutIds(R, Ids(list));
    var found := Chosen(rows, volume, cut);
    forall r: Row
      ensures r in found <==> r in R && r.id !in Ids(list) && r.volume == volume && Less(r.begin, cut)
    {
      KeptMember(rows, IsSpared(volume, cut), r);
      KeptMember(R, HasId(Ids(list)), r);
    }
    forall r | r in list + found
      ensures r in R && Doomed(r, volume, cuts + [cut])
    {
      DoomedMore(r, volume, cuts, cut);
    }
    forall r | r in R && Doomed(r, volume, cuts + [cut])
      ensures r in list + found
    {
      DoomedMore(r, volume, cuts, cut);
    }
  }

  class Status {
    const name: string
    const maxPer: int
    const clearFileDay: nat
    var usedPer: int

    constructor (disk: string, max: int, days: nat, used: int)
      ensures name == disk && maxPer == max && clearFileDay == days && usedPer == used
    {
      name, maxPer, clearFileDay, usedPer := disk, max, days, used;
    }

    /** One pass: select, and walk over the whole list again. */
    method Pass(store: Store, list: seq<Row>, cut: string, ghost R: seq<Row>, ghost F: set<string>, ghost cuts: seq<string>)
      returns (more: seq<Row>)
      requires UniqueIds(R) && (forall r <- R :: Storable(r)) && Cleared(store, R, F, name, cuts, list)
      modifies store
      ensures Cleared(store, R, F, name, cuts + [cut], more)
    {
      hide Doomed, Less, Kept, Chosen, WithoutIds, UniqueIds;
      ListMore(R, name, cuts, cut, list);
      var found := store.Select(cut, name);
      more := list + found;
      store.RemoveAll(more);
      WithoutMore(R, Ids(list), Ids(more));
      assert Ids(list) + Ids(more) == Ids(more);
      assert AllNames(list) + AllNames(more) == AllNames(more);
    }

    /** clear_disk, with the clock as it reads in each pass and the usage as it is read after each. */
    method Clear(store: Store, hours: int, cal: int -> seq<nat>, now: nat -> Moment, usage: nat -> int)
      returns (code: int, ghost cuts: seq<string>)
      requires UniqueIds(store.rows) && (forall r <- store.rows :: Storable(r)) && forall s :: |cal(s)| == 6
      modifies store, this`usedPer
      ensures cuts == Cuts(cal, now, hours, Passes(hours, old(usedPer), maxPer, usage, 0))
      ensures usedPer == UsedAt(old(usedPer), usage, |cuts|)
      ensures code == if TimeAt(hours, |cuts|) < CSS_CLEAR_MIN_HOUR then -1 else 0
      ensures store.rows == Spared(old(store.rows), name, cuts)
      ensures forall f :: f in store.files <==>
                f in old(store.files) && !exists r :: r in old(store.rows) && Doomed(r, name, cuts) && f in Names(r)
    {
      hide Doomed, Less, Kept, Chosen, WithoutIds, UniqueIds;
      ghost var R, F := store.rows, store.files;
      var list: seq<Row> := [];
      var time := hours;
      cuts := [];
      var k := 0;
      NothingCleared(store, name);
      while usedPer > maxPer && time >= CSS_CLEAR_MIN_HOUR
        invariant |cuts| == k && cuts == Cuts(cal, now, hours, k) && time == TimeAt(hours, k)
        invariant Cleared(store, R, F, name, cuts, list)
        invariant usedPer == UsedAt(old(usedPer), usage, k)
        invariant Passes(hours, old(usedPer), maxPer, usage, 0) == k + Passes(time, usedPer, maxPer, usage, k)
        decreases if time >= CSS_CLEAR_MIN_HOUR then time else 0
      {
        var cut := Cut(cal, now(k), time);
        list := Pass(store, list, cut, R, F, cuts);
        CutsMore(cal, now, hours, k);
        cuts := cuts + [cut];
        TimeAtMore(hours, k);
        time := if time > 24 then time - 24 else time - 1;
        usedPer := usage(k);
        k := k + 1;
      }
      ClearedMeans(store, R, F, name, cuts, list);
      code := if time < CSS_CLEAR_MIN_HOUR then -1 else 0;
    }

    /** css_clear_disk */
    method ClearDays(store: Store, cal: int -> seq<nat>, now: nat -> Moment, usage: nat -> int)
      returns (code: int, ghost cuts: seq<string>)
      requires UniqueIds(store.rows) && (forall r <- store.rows :: Storable(r)) && forall s :: |cal(s)| == 6
      modifies store, this`usedPer
      ensures cuts == Cuts(cal, now, clearFileDay * 24, Passes(clearFileDay * 24, old(usedPer), maxPer, usage, 0))
      ensures code == Code(clearFileDay, old(usedPer), maxPer, usage)
      ensures usedPer == UsedAt(old(usedPer), usage, |cuts|)
      ensures store.rows == Spared(old(store.rows), name, cuts)
      ensures forall f :: f in store.files <==>
                f in old(store.files) && !exists r :: r in old(store.rows) && Doomed(r, name, cuts) && f in Names(r)
    {
      code, cuts := Clear(store, clearFileDay * 24, cal, now, usage);
    }
  }

  lemma NothingCleared(store: Store, volume: string)
    ensures Cleared(store, store.rows, store.files, volume, [], [])
  {
    NoneRemoved(store.rows);
  }

  lemma CutsMore(cal: int -> seq<nat>, now: nat -> Moment, time: int, n: nat)
    requires forall s :: |cal(s)| == 6
    ensures Cuts(cal, now, time, n + 1) == Cuts(cal, now, time, n) + [Cut(cal, now(n), TimeAt(time, n))]
  {
  }

  lemma {:induction false} TimeAtMore(time: int, i: nat)
    ensures TimeAt(time, i + 1) == Next(TimeAt(time, i))
    decreases i
  {
    if i > 0 {
      TimeAtMore(Next(time), i - 1);
    }
  }

  lemma ClearedMeans(store: Store, R: seq<Row>, F: set<string>, volume: string, cuts: seq<string>, list: seq<Row>)
    requires UniqueIds(R) && Cleared(store, R, F, volume, cuts, list)
    ensures store.rows == Spared(R, volume, cuts)
    ensures forall f :: f in store.files <==> f in F && !exists r :: r in R && Doomed(r, volume, cuts) && f in Names(r)
  {
    hide Doomed, Less, Kept;
    forall r | r in R
      ensures r.id in Ids(list) <==> Doomed(r, volume, cuts)
    {
    }
    KeptSame(R, HasId(Ids(list)), IsDoomed(volume, cuts));
  }

  // ---- which recordings go

  /** A recording is doomed exactly if it is of the volume and began before the moment that some pass goes back to. */
  lemma DoomedIff(cal: int -> seq<nat>, low: int, high: int, now: nat -> Moment, time: int, n: nat, r: Row, volume: string,
                  began: Moment)
    requires Calendar(cal) && Advances(cal, low, high)
    requires r.begin == Stamp(cal, began.sec, began.ms) && began.ms < 1000 && low <= began.sec <= high
    requires forall i :: 0 <= i < n ==> low <= now(i).sec - TimeAt(time, i) * 3600 <= high && now(i).ms < 1000
    ensures Doomed(r, volume, Cuts(cal, now, time, n)) <==>
            r.volume == volume
            && exists i :: 0 <= i < n && Earlier(began.sec, began.ms, now(i).sec - TimeAt(time, i) * 3600, now(i).ms)
  {
    hide Stamp, Less, Earlier;
    var cuts := Cuts(cal, now, time, n);
    forall i | 0 <= i < n
      ensures Less(r.begin, cuts[i]) <==> Earlier(began.sec, began.ms, now(i).sec - TimeAt(time, i) * 3600, now(i).ms)
    {
      StampOrder(cal, low, high, began.sec, began.ms, now(i).sec - TimeAt(time, i) * 3600, now(i).ms);
    }
    if i :| 0 <= i < n && Earlier(began.sec, began.ms, now(i).sec - TimeAt(time, i) * 3600, now(i).ms) {
      assert cuts[i] in cuts && Less(r.begin, cuts[i]);
    }
  }

  /** The moment that pass i goes back to comes after the other. */
  predicate ReachedBy(began: Moment, now: Moment, d: nat, i: nat)
  {
    var hours := if i < d then 24 * (d - i) else 23 - (i - d);
    began.sec < now.sec - hours * 3600 || (began.sec == now.sec - hours * 3600 && began.ms < now.ms)
  }

  /** css_clear_disk, in moments: `began` says when the recordings of the rows began. There are n passes, each made because
      the disk is too full, and no more than d + 22; a recording goes exactly if it is of this disk and began before the
      moment that one of them goes back to. */
  method ClearInTime(status: Status, store: Store, cal: int -> seq<nat>, low: int, high: int, now: nat -> Moment,
                     usage: nat -> int, began: Row -> Moment) returns (code: int, ghost n: nat)
    requires status.clearFileDay >= 1
    requires forall a, b :: a in store.rows && b in store.rows && a.id == b.id ==> a == b
    requires forall r <- store.rows :: '\0' !in r.fileName && |r.fileName| + 6 < 256
    requires forall s :: |cal(s)| == 6 && cal(s)[0] < 10000 && forall i :: 0 < i < 6 ==> cal(s)[i] < 100
    requires forall s, t :: low <= s < t <= high ==> Before(cal(s), cal(t))
    requires forall r <- store.rows :: r.begin == Stamp(cal, began(r).sec, began(r).ms)
    requires forall r <- store.rows :: began(r).ms < 1000 && low <= began(r).sec <= high
    requires forall i :: 0 <= i < status.clearFileDay + 22 ==>
               low <= now(i).sec - status.clearFileDay * 24 * 3600 && now(i).sec <= high && now(i).ms < 1000
    modifies store, status`usedPer
    ensures n <= status.clearFileDay + 22 && (n < status.clearFileDay + 22 ==> status.usedPer <= status.maxPer)
    ensures (n > 0 ==> old(status.usedPer) > status.maxPer) && forall i :: 0 <= i < n - 1 ==> usage(i) > status.maxPer
    ensures status.usedPer == if n == 0 then old(status.usedPer) else usage(n - 1)
    ensures code == if n < status.clearFileDay + 22 then 0 else -1
    ensures forall r :: r in store.rows <==>
              r in old(store.rows)
              && !(r.volume == status.name && exists i :: 0 <= i < n && ReachedBy(began(r), now(i), status.clearFileDay, i))
    ensures forall f :: f in store.files <==>
              f in old(store.files) && !exists r :: r in old(store.rows) && r !in store.rows && f in Names(r)
  {
    CalendarIff(cal);
    hide Doomed, Less, Kept, Stamp, Passes, TimeAt, Cuts, Spared, Before, FitsFormat;
    ghost var rows, d, used := store.rows, status.clearFileDay, status.usedPer;
    ghost var cuts;
    code, cuts := status.ClearDays(store, cal, now, usage);
    n := Passes(d * 24, used, status.maxPer, usage, 0);
    CodeIff(d, used, status.maxPer, usage);
    assert n > 0 ==> UsedAt(used, usage, 0) > status.maxPer;
    assert forall i :: 0 <= i < n - 1 ==> UsedAt(used, usage, i + 1) == usage(i);
    forall i | 0 <= i < n
      ensures TimeAt(d * 24, i) == (if i < d then 24 * (d - i) else 23 - (i - d))
    {
      HoursOf(d, i);
    }
    forall r
      ensures r in store.rows <==> r in rows && !Doomed(r, status.name, cuts)
    {
      SparedMember(rows, status.name, cuts, r);
    }
    forall r | r in rows
      ensures Doomed(r, status.name, cuts) <==>
              r.volume == status.name && exists i :: 0 <= i < n && ReachedBy(began(r), now(i), d, i)
    {
      DoomedIff(cal, low, high, now, d * 24, n, r, status.name, began(r));
    }
  }

  lemma SparedMember(rs: seq<Row>, volume: string, cuts: seq<string>, r: Row)
    ensures r in Spared(rs, volume, cuts) <==> r in rs && !Doomed(r, volume, cuts)
  {
    KeptMember(rs, IsDoomed(volume, cuts), r);
  }

  /** Within one calendar, a recording that began less than two hours before every pass stays. */
  lemma RecentStays(cal: int -> seq<nat>, low: int, high: int, now: nat -> Moment, time: int, n: nat, r: Row, began: Moment)
    requires Calendar(cal) && Advances(cal, low, high) && n <= Room(time)
    requires r.begin == Stamp(cal, began.sec, began.ms) && began.ms < 1000 && low <= began.sec <= high
    requires forall i :: 0 <= i < n ==> low <= now(i).sec - TimeAt(time, i) * 3600 <= high && now(i).ms < 1000
    requires forall i :: 0 <= i < n ==> !Earlier(began.sec, began.ms, now(i).sec - 7200, now(i).ms)
    ensures !Doomed(r, r.volume, Cuts(cal, now, time, n))
  {
    hide Stamp, Less;
    var cuts := Cuts(cal, now, time, n);
    forall i | 0 <= i < n
      ensures !Less(r.begin, cuts[i])
    {
      TimeAtRoom(time, i);
      StampOrder(cal, low, high, began.sec, began.ms, now(i).sec - TimeAt(time, i) * 3600, now(i).ms);
    }
  }

  /** What is deleted is closed downwards: with a recording go all of its disk that began no later. */
  lemma OlderGoToo(cal: int -> seq<nat>, low: int, high: int, a: Row, b: Row, beganA: Moment, beganB: Moment, cuts: seq<string>)
    requires Calendar(cal) && Advances(cal, low, high) && a.volume == b.volume
    requires a.begin == Stamp(cal, beganA.sec, beganA.ms) && beganA.ms < 1000 && low <= beganA.sec <= high
    requires b.begin == Stamp(cal, beganB.sec, beganB.ms) && beganB.ms < 1000 && low <= beganB.sec <= high
    requires !Earlier(beganB.sec, beganB.ms, beganA.sec, beganA.ms)
    requires Doomed(b, b.volume, cuts)
    ensures Doomed(a, a.volume, cuts)
  {
    hide Stamp, Less;
    StampOrder(cal, low, high, beganB.sec, beganB.ms, beganA.sec, beganA.ms);
    var c :| c in cuts && Less(b.begin, c);
    LessThrough(a.begin, b.begin, c);
  }

  lemma {:induction false} LessThrough(a: string, b: string, c: string)
    requires !Less(b, a) && Less(b, c)
    ensures Less(a, c)
  {
    if a != "" && b != "" && a[0] == b[0] == c[0] {
      LessThrough(a[1..], b[1..], c[1..]);
    }
  }
}
