/** The replay reader: it loads the .cif index bucket by bucket and walks it with a cursor. */
module FrameGetter {
  import opened Bytes
  import opened RecordIndex
  import opened Options

  const CIF_LOW_LEVEL := 25
  const CIF_BUF_LEN := 20 * 1024
  const BUCKET_RECORDS := 1024
  const UV_EOF := -4095
  const UV_ENOBUFS := -105
  const UINT32_EOF := 0x1_0000_0000 - 4095  // UV_EOF as the unsigned cif_offset holds it

  datatype VideoFrame = VideoFrame(data: seq<byte>, frameType: int, millisecond: int)

  /** A file read: what there is of `len` bytes from `offset` on. */
  function ReadFile(file: seq<byte>, offset: nat, len: nat): seq<byte>
  {
    if offset >= |file| then [] else if offset + len >= |file| then file[offset..] else file[offset..offset + len]
  }

  function Entry(cif: seq<byte>, i: nat): CifEntry
    requires CIF_SIZE * (i + 1) <= |cif|
  {
    ReadCif(cif[CIF_SIZE * i..CIF_SIZE * i + CIF_SIZE])
  }

  /** The entries from number `i` up to number `j`. */
  function Entries(cif: seq<byte>, i: nat, j: nat): (es: seq<CifEntry>)
    requires i <= j && CIF_SIZE * j <= |cif|
    ensures |es| == j - i
    ensures forall k :: 0 <= k < |es| ==> es[k] == Entry(cif, i + k)
  {
    if i == j then [] else Entries(cif, i, j - 1) + [Entry(cif, j - 1)]
  }

  lemma EntriesJoin(cif: seq<byte>, i: nat, j: nat, k: nat)
    requires i <= j <= k && CIF_SIZE * k <= |cif|
    ensures Entries(cif, i, j) + Entries(cif, j, k) == Entries(cif, i, k)
  {
    hide ReadCif;
  }

  lemma NoEntries(a: seq<byte>, b: seq<byte>, i: nat)
    requires CIF_SIZE * i <= |b|
    ensures Entries(a, 0, 0) == Entries(b, i, i)
  {
  }

  /** The entries of a piece of the file. */
  lemma EntriesSlice(cif: seq<byte>, i: nat, n: nat)
    requires CIF_SIZE * (i + n) <= |cif|
    ensures Entries(cif[CIF_SIZE * i..CIF_SIZE * (i + n)], 0, n) == Entries(cif, i, i + n)
  {
    hide ReadCif;
    var buf := cif[CIF_SIZE * i..CIF_SIZE * (i + n)];
    forall k | 0 <= k < n
      ensures Entry(buf, k) == Entry(cif, i + k)
    {
      assert buf[CIF_SIZE * k..CIF_SIZE * k + CIF_SIZE] == cif[CIF_SIZE * (i + k)..CIF_SIZE * (i + k) + CIF_SIZE];
    }
  }

  lemma EntriesPrefix(a: seq<byte>, b: seq<byte>, n: nat)
    requires CIF_SIZE * n <= |a| && CIF_SIZE * n <= |b| && a[..CIF_SIZE * n] == b[..CIF_SIZE * n]
    ensures Entries(a, 0, n) == Entries(b, 0, n)
  {
    hide ReadCif;
    forall k | 0 <= k < n
      ensures Entry(a, k) == Entry(b, k)
    {
      assert a[CIF_SIZE * k..CIF_SIZE * k + CIF_SIZE] == a[..CIF_SIZE * n][CIF_SIZE * k..CIF_SIZE * k + CIF_SIZE];
      assert b[CIF_SIZE * k..CIF_SIZE * k + CIF_SIZE] == b[..CIF_SIZE * n][CIF_SIZE * k..CIF_SIZE * k + CIF_SIZE];
    }
  }

  function Flat(buckets: seq<seq<CifEntry>>): seq<CifEntry>
  {
    if buckets == [] then [] else buckets[0] + Flat(buckets[1..])
  }

  /** css_frame_getter_chain_t. The cursor is a position in the first bucket; its size stands for the sentinel. */
  class Chain {
    var buckets: seq<seq<CifEntry>>
    var current: nat
    var nelts: int
    var rest: int

    ghost predicate Valid()
      reads this
    {
      && |buckets| <= 2
      && nelts == |Flat(buckets)| && rest == nelts - current && rest >= 0
      && (if buckets == [] then current == 0 else current <= |buckets[0]|)
      && (|buckets| == 2 ==> current < |buckets[0]|)
    }

    /** The records that the cursor has not passed. */
    ghost function Unread(): (u: seq<CifEntry>)
      requires Valid()
      reads this
      ensures |u| == rest
    {
      Flat(buckets)[current..]
    }

    lemma RestByBucket()
      requires Valid()
      ensures |buckets| == 1 ==> rest == |buckets[0]| - current
      ensures |buckets| == 2 ==> rest > |buckets[1]|
      ensures buckets == [] ==> nelts == 0
    {
      if |buckets| >= 1 {
        assert Flat(buckets) == buckets[0] + Flat(buckets[1..]);
        if |buckets| == 1 {
          assert buckets[1..] == [];
        } else {
          assert Flat(buckets[1..]) == buckets[1..][0] + Flat(buckets[1..][1..]);
        }
      }
    }

    constructor ()
      ensures Valid() && buckets == []
    {
      buckets, current, nelts, rest := [], 0, 0, 0;
    }

    method ReleaseHeaderBucket()
      requires buckets != []
      modifies this`buckets, this`nelts
      ensures buckets == old(buckets[1..]) && nelts == old(nelts) - |old(buckets[0])|
    {
      nelts := nelts - |buckets[0]|;
      buckets := buckets[1..];
    }

    /** One record on; a finished bucket goes as soon as there is another. */
    method Move2Next() returns (ret: int)
      requires Valid() && (nelts == 0 || rest > 0)
      modifies this
      ensures Valid()
      ensures old(nelts) == 0 ==> ret == -105 && buckets == old(buckets) && rest == old(rest)
      ensures old(nelts) != 0 ==>
                && Unread() == old(Unread())[1..]
                && ret == (if rest == 0 && buckets == old(buckets) then UV_EOF else 0)
                && (buckets == old(buckets) || (|old(buckets)| == 2 && buckets == old(buckets)[1..]))
    {
      ret := 0;
      if nelts == 0 {
        return UV_ENOBUFS;
      }
      current := current + 1;
      rest := rest - 1;
      if current == |buckets[0]| {
        if |buckets| == 1 {
          assert buckets[1..] == [];
          ret := UV_EOF;
        } else {
          ReleaseHeaderBucket();
          current := 0;
        }
      }
    }

    /** The record under the cursor. */
    method CurrentData() returns (e: CifEntry)
      requires Valid() && rest > 0
      ensures e == Unread()[0]
    {
      RestByBucket();
      e := buckets[0][current];
    }

    method BuildCifQueue(buf: seq<byte>) returns (bucket: seq<CifEntry>)
      ensures bucket == Entries(buf, 0, |buf| / CIF_SIZE)
    {
      hide ReadCif;
      var count := |buf| / CIF_SIZE;
      bucket := [];
      for i := 0 to count
        invariant bucket == Entries(buf, 0, i)
      {
        bucket := bucket + [ReadCif(buf[CIF_SIZE * i..CIF_SIZE * i + CIF_SIZE])];
      }
    }

    method AddCifBucket(buf: seq<byte>, ghost n: nat) returns (count: nat)
      requires Valid() && |buckets| <= 1 && |buf| / CIF_SIZE == n
      requires buckets != [] ==> rest > 0
      modifies this
      ensures Valid() && Unread() == old(Unread()) + Entries(buf, 0, n)
      ensures buckets == old(buckets) + [Entries(buf, 0, n)] && current == old(current)
      ensures count == n && rest == old(rest) + n
    {
      RestByBucket();
      hide Entries;
      var bucket := BuildCifQueue(buf);
      FlatMore(buckets, bucket);
      hide Flat;
      buckets := buckets + [bucket];
      nelts := nelts + |bucket|;
      rest := rest + |bucket|;
      count := |bucket|;
    }
  }

  lemma {:induction false} FlatMore(buckets: seq<seq<CifEntry>>, b: seq<CifEntry>)
    ensures Flat(buckets + [b]) == Flat(buckets) + b
  {
    if buckets == [] {
      assert [] + [b] == [b];
      assert [b][1..] == [];
    } else {
      assert (buckets + [b])[1..] == buckets[1..] + [b];
      FlatMore(buckets[1..], b);
    }
  }

  /** css_replay_frame_getter_t, used synchronously. */
  class Getter {
    const cif: seq<byte>
    const record: seq<byte>
    const diffSvTime: (Time, Time) -> int
    const chain: Chain
    var cifOffset: uint32
    var startTime: Time

    ghost var pos: nat     // the records that have been replayed
    ghost var loaded: nat  // the records that have been loaded

    /** The number of whole records in the index. */
    const records: nat

    ghost predicate FilesFixed()
    {
      && records == |cif| / CIF_SIZE && |cif| < UINT32_EOF
      && (cif != [] ==> records > 0 && Entry(cif, 0).time.year != 0)
    }

    /** The chain holds the loaded records that have not been replayed. */
    ghost predicate Placed()
      requires FilesFixed()
      reads this, chain
    {
      && chain.Valid()
      && pos <= loaded <= records
      && chain.Unread() == Entries(cif, pos, loaded)
      && (cifOffset == CIF_SIZE * loaded || (cifOffset == UINT32_EOF && loaded == records))
      && (chain.buckets == [] ==> loaded == 0)
      && (|chain.buckets| == 2 ==> |chain.buckets[1]| > CIF_LOW_LEVEL || cifOffset == UINT32_EOF)
    }

    /** Once the first bucket is there, records run low only at the end of the file. */
    ghost predicate Valid()
      reads this, chain
    {
      && FilesFixed()
      && Placed()
      && (if chain.buckets == [] then startTime.year == 0
          else records > 0 && startTime == Entry(cif, 0).time && (chain.rest >= CIF_LOW_LEVEL || cifOffset == UINT32_EOF))
    }

    /** How many records the next read brings: those behind the loaded ones, up to a bucket's size. */
    ghost function Piece(): nat
      requires loaded <= records
      reads this`loaded
    {
      if records - loaded >= BUCKET_RECORDS then BUCKET_RECORDS else records - loaded
    }

    /** `buf` is the next piece of the index, with what may be left of a record at its end. */
    ghost predicate IsNext(buf: seq<byte>)
      requires pos <= loaded <= records && CIF_SIZE * records <= |cif|
      reads this`pos, this`loaded
    {
      && |buf| / CIF_SIZE == Piece() && CIF_SIZE * Piece() <= |buf| <= CIF_BUF_LEN
      && (|buf| == CIF_BUF_LEN ==> Piece() == BUCKET_RECORDS) && (|buf| < CIF_BUF_LEN ==> loaded + Piece() == records)
      && Entries(cif, pos, loaded) + Entries(buf, 0, Piece()) == Entries(cif, pos, loaded + Piece())
    }

    lemma NextPiece()
      requires FilesFixed() && pos <= loaded <= records
      requires cifOffset == CIF_SIZE * loaded || (cifOffset == UINT32_EOF && loaded == records)
      ensures IsNext(ReadFile(cif, cifOffset, CIF_BUF_LEN))
      ensures cifOffset == UINT32_EOF || cif == [] ==> ReadFile(cif, cifOffset, CIF_BUF_LEN) == []
    {
      hide Entries, Entry;
      var buf, n := ReadFile(cif, cifOffset, CIF_BUF_LEN), Piece();
      if cifOffset == UINT32_EOF {
        NoEntries(buf, cif, loaded);
      } else {
        var k := CIF_SIZE * n;
        var piece := cif[CIF_SIZE * loaded..CIF_SIZE * (loaded + n)];
        assert buf[..k] == piece == piece[..k];
        EntriesPrefix(buf, piece, n);
        EntriesSlice(cif, loaded, n);
      }
      EntriesJoin(cif, pos, loaded, loaded + n);
    }

    constructor (cif: seq<byte>, record: seq<byte>, diffSvTime: (Time, Time) -> int)
      requires |cif| < UINT32_EOF
      requires cif != [] ==> |cif| >= CIF_SIZE && Entry(cif, 0).time.year != 0
      ensures Valid() && pos == 0
      ensures this.cif == cif && this.record == record && this.diffSvTime == diffSvTime
      ensures fresh(chain)
    {
      this.cif, this.record, this.diffSvTime := cif, record, diffSvTime;
      records := |cif| / CIF_SIZE;
      chain := new Chain();
      cifOffset, startTime := 0, Time(0, 0, 0, 0);
      pos, loaded := 0, 0;
    }

    /** While there is something to read, there is at most one bucket, and the cursor is on a record of it. */
    lemma RoomForBucket()
      requires FilesFixed() && Placed() && chain.rest <= CIF_LOW_LEVEL
      requires chain.buckets != [] && chain.rest == 0 ==> cifOffset == UINT32_EOF
      ensures cifOffset != UINT32_EOF ==> |chain.buckets| <= 1 && (chain.buckets != [] ==> chain.rest > 0)
    {
      hide Entries, Flat;
      chain.RestByBucket();
    }

    method MarkEof()
      requires FilesFixed() && Placed() && loaded == records
      modifies this`cifOffset
      ensures Placed()
      ensures cifOffset == UINT32_EOF
    {
      hide Entries, Flat;
      cifOffset := UINT32_EOF;
    }

    /** css__replay_frame_getter_read_cif: load the next bucket, or note that there is none. A read that brings only a part of
        a record adds an empty bucket. */
    method ReadCifBucket() returns (ret: int)
      requires FilesFixed() && Placed() && chain.rest <= CIF_LOW_LEVEL && loaded <= records
      requires cifOffset == CIF_SIZE * loaded || (cifOffset == UINT32_EOF && loaded == records)
      requires chain.buckets != [] && chain.rest == 0 ==> cifOffset == UINT32_EOF
      modifies this`cifOffset, this`loaded, chain
      ensures Placed()
      ensures ret < 0 ==> chain.buckets == old(chain.buckets) && chain.rest == old(chain.rest) && chain.nelts == old(chain.nelts)
      ensures ret < 0 ==> old(loaded) == records
      ensures ret >= 0 ==> |chain.buckets| == |old(chain.buckets)| + 1 && chain.rest == old(chain.rest) + ret
      ensures ret >= 0 ==> records > 0 && (old(loaded) < records ==> ret > 0)
      ensures ret > CIF_LOW_LEVEL || cifOffset == UINT32_EOF
      ensures chain.current == old(chain.current)
    {
      NextPiece();
      RoomForBucket();
      hide Entries, Entry, ReadFile, Flat, Chain.Valid, Chain.Unread;
      var buf := ReadFile(cif, cifOffset, CIF_BUF_LEN);
      if buf == [] {
        MarkEof();
        return UV_EOF;
      }
      hide Placed;
      ret := Enlarge(buf);
    }

    /** A bucket more, and the offset of the next one, or the mark that there is none. */
    method Enlarge(buf: seq<byte>) returns (ret: int)
      requires FilesFixed() && Placed() && |chain.buckets| <= 1 && (chain.buckets != [] ==> chain.rest > 0)
      requires IsNext(buf) && buf != [] && cifOffset == CIF_SIZE * loaded && (chain.buckets == [] ==> records > 0)
      modifies this`cifOffset, this`loaded, chain
      ensures Placed() && loaded == old(loaded + Piece()) && ret == old(Piece())
      ensures |chain.buckets| == |old(chain.buckets)| + 1 && chain.rest == old(chain.rest) + ret
      ensures chain.current == old(chain.current)
      ensures ret == BUCKET_RECORDS || cifOffset == UINT32_EOF
    {
      hide Entries, Entry, Flat;
      ret := chain.AddCifBucket(buf, Piece());
      cifOffset := if |buf| < CIF_BUF_LEN then UINT32_EOF else cifOffset + |buf|;
      loaded := loaded + ret;
    }

    // ---- css__replay_frame_getter_read_rec

    /** Load more records when they run low; the first record's time is the start of the replay. */
    method Refill() returns (ret: int)
      requires Valid()
      modifies this`cifOffset, this`loaded, this`startTime, chain
      ensures Valid()
      ensures ret < 0 ==> chain.rest == 0 && loaded == records
      ensures ret >= 0 ==> chain.buckets != [] && (chain.rest > CIF_LOW_LEVEL || cifOffset == UINT32_EOF)
    {
      hide Entries, Entry, ReadFile, Flat;
      ret := 0;
      if chain.rest <= CIF_LOW_LEVEL {
        ret := ReadCifBucket();
        chain.RestByBucket();
        if ret < 0 && chain.nelts == 0 {
          return;
        }
        ret := 0;
        if startTime.year == 0 {
          chain.current := 0;
          var cif := chain.CurrentData();
          startTime := cif.time;
        }
      }
    }

    ghost function Data(i: nat): seq<byte>
      requires CIF_SIZE * (i + 1) <= |cif|
    {
      ReadFile(record, Entry(cif, i).offset, Entry(cif, i).len)
    }

    /** What the replay must show for record `i`. */
    ghost function Shown(i: nat): VideoFrame
      requires CIF_SIZE * (i + 1) <= |cif|
    {
      VideoFrame(Data(i), Entry(cif, i).kind, diffSvTime(Entry(cif, i).time, Entry(cif, 0).time))
    }

    /** css_replay_frame_getter_get_next_frame: the next record's frame; the end of file at the end of the index,
        and forever at a record for which there are no bytes. */
    method NextFrame() returns (ret: int, frame: Option<VideoFrame>)
      requires Valid()
      modifies this, chain
      ensures Valid()
      ensures if old(pos) < records && Data(old(pos)) != []
              then frame == Some(Shown(old(pos))) && ret == |Data(old(pos))| && pos == old(pos) + 1
              else frame == None && ret == -4095 && pos == old(pos)
    {
      hide Entries, Entry, ReadFile, Flat;
      ret := Refill();
      if ret < 0 {
        return UV_EOF, None;
      }
      if chain.rest <= 0 {
        return UV_EOF, None;
      }
      var e := chain.CurrentData();
      var data := ReadFile(record, e.offset, e.len);
      if |data| == 0 {
        return UV_EOF, None;
      }
      frame := Some(VideoFrame(data, e.kind, diffSvTime(e.time, startTime)));
      ret := |data|;
      Advance();
    }

    /** One record on. */
    method Advance()
      requires FilesFixed() && Placed() && pos < loaded && chain.buckets != [] && records > 0 && startTime == Entry(cif, 0).time
      requires chain.rest > CIF_LOW_LEVEL || cifOffset == UINT32_EOF
      modifies this`pos, chain
      ensures Valid() && pos == old(pos) + 1
    {
      hide Entries, Entry, Flat;
      var _ := chain.Move2Next();
      EntriesDrop(cif, pos, loaded);
      pos := pos + 1;
    }
  }

  lemma EntriesDrop(cif: seq<byte>, i: nat, j: nat)
    requires i < j && CIF_SIZE * j <= |cif|
    ensures Entries(cif, i, j)[0] == Entry(cif, i)
    ensures Entries(cif, i, j)[1..] == Entries(cif, i + 1, j)
  {
    hide ReadCif;
  }
}
