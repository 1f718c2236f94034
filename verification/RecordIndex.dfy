/** The three files of a recording: the record itself, the .cif index of all frames and the .iif index of its I-frames. */
module RecordIndex {
  import opened Bytes

  const FRAME_TYPE_I_FRAME := 0x0001
  const FRAME_TYPE_SYS_HEADER := 0x0080

  const CIF_SIZE := 20
  const IIF_SIZE := 12

  /** Offsets in the files are C ints. */
  const INT32_LIMIT := 0x8000_0000

  /** sv_time_t */
  datatype Time = Time(year: nat, month: nat, day: nat, milliSeconds: nat)

  /** One reading of the clock: milliseconds, and the local calendar fields of the same instant. */
  datatype Clock = Clock(ms: int, sv: Time)

  datatype Frame = Frame(data: seq<byte>, kind: int, at: Clock)

  predicate TimeFits(t: Time)
  {
    t.year < 0x1_0000 && t.month < 0x100 && t.day < 0x100 && t.milliSeconds < 0x1_0000_0000
  }

  /** The frame's type and calendar fields have the widths of their C types, and its size fits one. */
  predicate Storable(f: Frame)
  {
    TimeFits(f.at.sv) && -0x8000_0000 <= f.kind < 0x8000_0000 && |f.data| < 0x8000_0000
  }

  datatype FileSet = FileSet(record: seq<byte>, cif: seq<byte>, iif: seq<byte>)

  // ---- what is written

  function TimeRecord(t: Time): (b: seq<byte>)
    ensures |b| == 8
  {
    BigEndian(t.year, 2) + BigEndian(t.month, 1) + BigEndian(t.day, 1) + BigEndian(t.milliSeconds, 4)
  }

  function CifRecord(offset: int, f: Frame): (b: seq<byte>)
    ensures |b| == CIF_SIZE
  {
    BigEndian(offset, 4) + BigEndian(|f.data|, 4) + BigEndian(f.kind, 4) + TimeRecord(f.at.sv)
  }

  function IifRecord(offset: int, f: Frame): (b: seq<byte>)
    ensures |b| == IIF_SIZE
  {
    BigEndian(offset, 4) + TimeRecord(f.at.sv)
  }

  /** The frames, one behind the other. */
  function RecordBytes(fs: seq<Frame>): seq<byte>
  {
    if fs == [] then [] else RecordBytes(fs[..|fs| - 1]) + fs[|fs| - 1].data
  }

  /** One entry per frame: where it starts, its size, its type, its time. */
  function CifBytes(fs: seq<Frame>): (b: seq<byte>)
    ensures |b| == CIF_SIZE * |fs|
  {
    if fs == [] then []
    else CifBytes(fs[..|fs| - 1]) + CifRecord(|RecordBytes(fs[..|fs| - 1])|, fs[|fs| - 1])
  }

  predicate IsI(f: Frame)
  {
    f.kind == FRAME_TYPE_I_FRAME
  }

  function CountI(fs: seq<Frame>): nat
  {
    if fs == [] then 0 else CountI(fs[..|fs| - 1]) + if IsI(fs[|fs| - 1]) then 1 else 0
  }

  predicate FileFits(fs: seq<Frame>)
  {
    |RecordBytes(fs)| < INT32_LIMIT && CIF_SIZE * |fs| < INT32_LIMIT
  }

  /** One entry per I-frame: where its .cif entry starts, its time. */
  function IifBytes(fs: seq<Frame>): (b: seq<byte>)
    ensures |b| == IIF_SIZE * CountI(fs)
  {
    if fs == [] then []
    else IifBytes(fs[..|fs| - 1])
         + if IsI(fs[|fs| - 1]) then IifRecord(CIF_SIZE * (|fs| - 1), fs[|fs| - 1]) else []
  }

  function Layout(fs: seq<Frame>): FileSet
  {
    FileSet(RecordBytes(fs), CifBytes(fs), IifBytes(fs))
  }

  // ---- what is read back

  datatype CifEntry = CifEntry(offset: nat, len: nat, kind: int, time: Time)

  datatype IifEntry = IifEntry(offset: nat, time: Time)

  function ReadTime(b: seq<byte>): Time
    requires |b| == 8
  {
    Time(Value(b[..2]), Value(b[2..3]), Value(b[3..4]), Value(b[4..]))
  }

  function ReadCif(b: seq<byte>): CifEntry
    requires |b| == CIF_SIZE
  {
    CifEntry(Value(b[..4]), Value(b[4..8]), Signed(Value(b[8..12]), 4), ReadTime(b[12..]))
  }

  function ReadIif(b: seq<byte>): IifEntry
    requires |b| == IIF_SIZE
  {
    IifEntry(Value(b[..4]), ReadTime(b[4..]))
  }

  lemma TimeRoundTrip(t: Time)
    requires TimeFits(t)
    ensures ReadTime(TimeRecord(t)) == t
  {
    hide Value, BigEndian;
    PowValues();
    var b := TimeRecord(t);
    assert b[..2] == BigEndian(t.year, 2);
    assert b[2..3] == BigEndian(t.month, 1);
    assert b[3..4] == BigEndian(t.day, 1);
    assert b[4..] == BigEndian(t.milliSeconds, 4);
    UnsignedRoundTrip(t.year, 2);
    UnsignedRoundTrip(t.month, 1);
    UnsignedRoundTrip(t.day, 1);
    UnsignedRoundTrip(t.milliSeconds, 4);
  }

  /** The 20 bytes of a .cif entry: offset, size, type, year, month, day, milliseconds of the day. */
  lemma CifBytesOf(offset: int, f: Frame)
    requires Storable(f) && 0 <= offset < 0x8000_0000
    ensures var b, t := CifRecord(offset, f), f.at.sv;
            && |b| == 20 && Value(b[..4]) == offset && Value(b[4..8]) == |f.data| && Signed(Value(b[8..12]), 4) == f.kind
            && Value(b[12..14]) == t.year && Value(b[14..15]) == t.month && Value(b[15..16]) == t.day
            && Value(b[16..20]) == t.milliSeconds
  {
    hide Value, BigEndian;
    PowValues();
    var b, t := CifRecord(offset, f), f.at.sv;
    assert b[..4] == BigEndian(offset, 4) && b[4..8] == BigEndian(|f.data|, 4) && b[8..12] == BigEndian(f.kind, 4);
    assert b[12..14] == BigEndian(t.year, 2) && b[14..15] == BigEndian(t.month, 1) && b[15..16] == BigEndian(t.day, 1);
    assert b[16..20] == BigEndian(t.milliSeconds, 4);
    UnsignedRoundTrip(offset, 4);
    UnsignedRoundTrip(|f.data|, 4);
    SignedRoundTrip(f.kind, 4);
    UnsignedRoundTrip(t.year, 2);
    UnsignedRoundTrip(t.month, 1);
    UnsignedRoundTrip(t.day, 1);
    UnsignedRoundTrip(t.milliSeconds, 4);
  }

  /** The 12 bytes of an .iif entry: offset, year, month, day, milliseconds of the day. */
  lemma IifBytesOf(offset: int, f: Frame)
    requires Storable(f) && 0 <= offset < 0x8000_0000
    ensures var b, t := IifRecord(offset, f), f.at.sv;
            && |b| == 12 && Value(b[..4]) == offset && Value(b[4..6]) == t.year && Value(b[6..7]) == t.month
            && Value(b[7..8]) == t.day && Value(b[8..12]) == t.milliSeconds
  {
    hide Value, BigEndian;
    PowValues();
    var b, t := IifRecord(offset, f), f.at.sv;
    assert b[..4] == BigEndian(offset, 4) && b[4..6] == BigEndian(t.year, 2) && b[6..7] == BigEndian(t.month, 1);
    assert b[7..8] == BigEndian(t.day, 1) && b[8..12] == BigEndian(t.milliSeconds, 4);
    UnsignedRoundTrip(offset, 4);
    UnsignedRoundTrip(t.year, 2);
    UnsignedRoundTrip(t.month, 1);
    UnsignedRoundTrip(t.day, 1);
    UnsignedRoundTrip(t.milliSeconds, 4);
  }

  lemma CifRoundTrip(offset: int, f: Frame)
    requires Storable(f) && 0 <= offset < 0x8000_0000
    ensures ReadCif(CifRecord(offset, f)) == CifEntry(offset, |f.data|, f.kind, f.at.sv)
  {
    hide Value, BigEndian;
    PowValues();
    var b := CifRecord(offset, f);
    assert b[..4] == BigEndian(offset, 4);
    assert b[4..8] == BigEndian(|f.data|, 4);
    assert b[8..12] == BigEndian(f.kind, 4);
    assert b[12..] == TimeRecord(f.at.sv);
    UnsignedRoundTrip(offset, 4);
    UnsignedRoundTrip(|f.data|, 4);
    SignedRoundTrip(f.kind, 4);
    TimeRoundTrip(f.at.sv);
  }

  lemma IifRoundTrip(offset: int, f: Frame)
    requires Storable(f) && 0 <= offset < 0x8000_0000
    ensures ReadIif(IifRecord(offset, f)) == IifEntry(offset, f.at.sv)
  {
    hide Value, BigEndian;
    PowValues();
    var b := IifRecord(offset, f);
    assert b[..4] == BigEndian(offset, 4);
    assert b[4..] == TimeRecord(f.at.sv);
    UnsignedRoundTrip(offset, 4);
    TimeRoundTrip(f.at.sv);
  }

  // ---- the indexes agree with the data

  /** The frames tile the record file: frame `i` occupies the bytes from the sum of the earlier sizes on. */
  lemma {:induction false} RecordTiling(fs: seq<Frame>, i: nat)
    requires i < |fs|
    ensures |RecordBytes(fs[..i])| + |fs[i].data| == |RecordBytes(fs[..i + 1])| <= |RecordBytes(fs)|
    ensures RecordBytes(fs)[|RecordBytes(fs[..i])|..|RecordBytes(fs[..i + 1])|] == fs[i].data
  {
    var n := |fs| - 1;
    if i == n {
      assert fs[..i + 1] == fs;
    } else {
      RecordTiling(fs[..n], i);
      assert fs[..n][..i] == fs[..i] && fs[..n][..i + 1] == fs[..i + 1];
      assert RecordBytes(fs) == RecordBytes(fs[..n]) + fs[n].data;
    }
  }

  /** The .iif file has one entry of 12 bytes for each frame of type 1. */
  lemma {:induction false} IifLength(fs: seq<Frame>)
    ensures |IifBytes(fs)| == 12 * |set i | 0 <= i < |fs| && fs[i].kind == 1|
  {
    if fs != [] {
      var n := |fs| - 1;
      IifLength(fs[..n]);
      var few, all := set i | 0 <= i < n && fs[..n][i].kind == 1, set i | 0 <= i < |fs| && fs[i].kind == 1;
      assert all == few + if fs[n].kind == 1 then {n} else {};
    }
  }

  /** Entry `i` of the .cif file is the record of frame `i`, with the offset at which that frame starts. */
  lemma {:induction false} CifAt(fs: seq<Frame>, i: nat)
    requires i < |fs|
    ensures CifBytes(fs)[CIF_SIZE * i..CIF_SIZE * (i + 1)] == CifRecord(|RecordBytes(fs[..i])|, fs[i])
  {
    hide Value, BigEndian;
    var n := |fs| - 1;
    if i < n {
      CifAt(fs[..n], i);
      assert fs[..n][..i] == fs[..i];
      assert CifBytes(fs)[CIF_SIZE * i..CIF_SIZE * (i + 1)] == CifBytes(fs[..n])[CIF_SIZE * i..CIF_SIZE * (i + 1)];
    } else {
      assert CIF_SIZE * (i + 1) == |CifBytes(fs)|;
      assert CifBytes(fs) == CifBytes(fs[..n]) + CifRecord(|RecordBytes(fs[..n])|, fs[n]);
    }
  }

  lemma SliceOfSum(a: seq<byte>, b: seq<byte>, i: nat, j: nat)
    requires i <= j <= |a|
    ensures (a + b)[i..j] == a[i..j]
  {
  }

  /** The .iif entry of I-frame `i` comes after those of the earlier I-frames and points at its .cif entry. */
  lemma {:induction false} IifAt(fs: seq<Frame>, i: nat)
    requires i < |fs| && IsI(fs[i])
    ensures CountI(fs[..i]) < CountI(fs)
    ensures IifBytes(fs)[IIF_SIZE * CountI(fs[..i])..IIF_SIZE * (CountI(fs[..i]) + 1)] == IifRecord(CIF_SIZE * i, fs[i])
    decreases |fs|
  {
    hide Value, BigEndian, IifBytes, CountI, IifRecord;
    var n := |fs| - 1;
    var more := if IsI(fs[n]) then IifRecord(CIF_SIZE * n, fs[n]) else [];
    IifMore(fs);
    if i < n {
      IifAt(fs[..n], i);
      assert fs[..n][..i] == fs[..i];
      var k := CountI(fs[..i]);
      SliceOfSum(IifBytes(fs[..n]), more, IIF_SIZE * k, IIF_SIZE * (k + 1));
    } else {
      EndOfSum(IifBytes(fs[..n]), more, IIF_SIZE * (CountI(fs[..n]) + 1));
    }
  }

  lemma IifMore(fs: seq<Frame>)
    requires fs != []
    ensures var n := |fs| - 1;
            && IifBytes(fs) == IifBytes(fs[..n]) + (if IsI(fs[n]) then IifRecord(CIF_SIZE * n, fs[n]) else [])
            && CountI(fs) == CountI(fs[..n]) + if IsI(fs[n]) then 1 else 0
  {
    hide IifRecord;
  }

  lemma EndOfSum(a: seq<byte>, b: seq<byte>, j: nat)
    requires j == |a + b|
    ensures (a + b)[|a|..j] == b
  {
  }

  lemma CifEntryAt(fs: seq<Frame>, i: nat)
    requires i < |fs| && Storable(fs[i]) && |RecordBytes(fs)| < 0x8000_0000
    ensures ReadCif(CifBytes(fs)[CIF_SIZE * i..CIF_SIZE * (i + 1)])
         == CifEntry(|RecordBytes(fs[..i])|, |fs[i].data|, fs[i].kind, fs[i].at.sv)
  {
    CifAt(fs, i);
    RecordTiling(fs, i);
    CifRoundTrip(|RecordBytes(fs[..i])|, fs[i]);
  }

  lemma IifEntryAt(fs: seq<Frame>, i: nat)
    requires i < |fs| && IsI(fs[i]) && Storable(fs[i]) && CIF_SIZE * |fs| < 0x8000_0000
    ensures CountI(fs[..i]) < CountI(fs)
    ensures ReadIif(IifBytes(fs)[IIF_SIZE * CountI(fs[..i])..IIF_SIZE * (CountI(fs[..i]) + 1)])
         == IifEntry(CIF_SIZE * i, fs[i].at.sv)
  {
    IifAt(fs, i);
    IifRoundTrip(CIF_SIZE * i, fs[i]);
  }

  /** Following the .iif entry of I-frame `i` (the `k`-th one) into the .cif file, and that entry into the record,
      leads to the frame. */
  lemma IndexAgreement(fs: seq<Frame>, i: nat, k: nat, e: IifEntry, c: CifEntry)
    requires i < |fs| && IsI(fs[i]) && Storable(fs[i])
    requires |RecordBytes(fs)| < 0x8000_0000 && CIF_SIZE * |fs| < 0x8000_0000
    requires k == CountI(fs[..i])
    requires k < CountI(fs) ==> e == ReadIif(IifBytes(fs)[IIF_SIZE * k..IIF_SIZE * (k + 1)])
    requires e.offset + CIF_SIZE <= |CifBytes(fs)| ==> c == ReadCif(CifBytes(fs)[e.offset..e.offset + CIF_SIZE])
    ensures k < CountI(fs) && e == IifEntry(CIF_SIZE * i, fs[i].at.sv)
    ensures e.offset + CIF_SIZE <= |CifBytes(fs)|
    ensures c == CifEntry(|RecordBytes(fs[..i])|, |fs[i].data|, fs[i].kind, fs[i].at.sv)
    ensures c.offset + c.len <= |RecordBytes(fs)| && RecordBytes(fs)[c.offset..c.offset + c.len] == fs[i].data
  {
    hide ReadIif, ReadCif, Value, BigEndian, CifBytes, IifBytes, RecordBytes, CountI;
    IifEntryAt(fs, i);
    CifEntryAt(fs, i);
    RecordTiling(fs, i);
  }
}
