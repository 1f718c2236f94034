/** The answer to a search for recordings. */
module SearchRecord {
  import opened Bytes
  import opened ProtocolPackage
  import opened Sequences

  const SEARCH_RESPONSE := 0x80060006

  /** A recording found: the times are the 23 characters of their texts. */
  datatype Record = Record(fileID: int, dvrEquipId: uint64, channelNo: uint16, beginTime: seq<byte>, endTime: seq<byte>,
                           playLength: uint64, fileName: seq<byte>)
  {
    predicate Valid()
    {
      -0x8000_0000_0000_0000 <= fileID < 0x8000_0000_0000_0000 && |beginTime| == |endTime| == 23
    }

    function Size(): nat
    {
      82 + |fileName|
    }
  }

  predicate AllValid(fs: seq<Record>)
  {
    forall f <- fs :: f.Valid()
  }

  function TotalSize(fs: seq<Record>): nat
  {
    if fs == [] then 28 else TotalSize(fs[..|fs| - 1]) + fs[|fs| - 1].Size()
  }

  // ---- the bytes of the answer

  function Front(f: Record): seq<byte>
  {
    BigEndian(f.fileID, 8) + BigEndian(f.dvrEquipId, 8) + BigEndian(f.channelNo, 2) + f.beginTime + f.endTime +
    BigEndian(f.playLength, 8)
  }

  function RecordBytes(f: Record): (b: seq<byte>)
    ensures f.Valid() ==> |b| == f.Size()
  {
    BigEndian(f.Size() - 4, 4) + Front(f) + BigEndian(|f.fileName|, 2) + f.fileName + BigEndian(0, 4)
  }

  function RecordsBytes(fs: seq<Record>): seq<byte>
  {
    if fs == [] then [] else RecordsBytes(fs[..|fs| - 1]) + RecordBytes(fs[|fs| - 1])
  }

  function Zeros(n: nat): (s: seq<byte>)
    ensures |s| == n
  {
    seq(n, _ => 0)
  }

  /** Length, command, the rest of the header, the result, the number of records. */
  function Header(len: int): (b: seq<byte>)
    ensures |b| == 20
  {
    BigEndian(len, 4) + BigEndian(SEARCH_RESPONSE, 4) + Zeros(12)
  }

  function OkResponse(fs: seq<Record>): seq<byte>
  {
    Header(TotalSize(fs)) + BigEndian(0, 4) + BigEndian(|fs|, 4) + RecordsBytes(fs)
  }

  function ErrorResponse(err: int): seq<byte>
  {
    Header(24) + BigEndian(err, 4)
  }

  /** The bytes written are exactly as many as were counted. */
  lemma {:induction false} LengthIsTotal(fs: seq<Record>)
    requires AllValid(fs)
    ensures |OkResponse(fs)| == TotalSize(fs)
  {
    hide BigEndian;
    if fs != [] {
      LengthIsTotal(fs[..|fs| - 1]);
    }
  }

  // ---- a reader

  datatype Parsed<T> = Failed | Parsed(value: T)

  /** One record and what follows it. The record's size must agree with its name's length. */
  function ParseRecord(b: seq<byte>): (r: Parsed<(Record, seq<byte>)>)
    ensures r.Parsed? ==> |r.value.1| < |b|
  {
    if |b| < 82 then Failed else
    var n := Value(b[76..78]);
    if |b| < 82 + n || Value(b[..4]) + 4 != 82 + n then Failed else
    Parsed((Record(Signed(Value(b[4..12]), 8), Number8(b[12..20]), Number2(b[20..22]), b[22..45], b[45..68],
                   Number8(b[68..76]), b[78..78 + n]),
            b[82 + n..]))
  }

  function Number8(s: seq<byte>): uint64
    requires |s| == 8
  {
    BigEndianOfValue(s);
    PowValues();
    Value(s)
  }

  function Number2(s: seq<byte>): uint16
    requires |s| == 2
  {
    BigEndianOfValue(s);
    PowValues();
    Value(s)
  }

  /** n records and nothing else. */
  function ParseRecords(b: seq<byte>, n: nat): Parsed<seq<Record>>
    decreases n
  {
    if n == 0 then (if b == [] then Parsed([]) else Failed) else
    match ParseRecord(b)
    case Failed => Failed
    case Parsed(p) =>
      match ParseRecords(p.1, n - 1)
      case Failed => Failed
      case Parsed(fs) => Parsed([p.0] + fs)
  }

  function ParseResponse(b: seq<byte>): Parsed<seq<Record>>
  {
    if |b| < 28 || Value(b[..4]) != |b| || Value(b[4..8]) != SEARCH_RESPONSE || Value(b[20..24]) != 0 then Failed
    else ParseRecords(b[28..], Value(b[24..28]))
  }

  // ---- what the reader makes of the answer

  lemma RecordSlices(f: Record, rest: seq<byte>)
    requires f.Valid()
    ensures var b := RecordBytes(f) + rest; var n := |f.fileName|;
            && b[..4] == BigEndian(f.Size() - 4, 4) && b[4..12] == BigEndian(f.fileID, 8)
            && b[12..20] == BigEndian(f.dvrEquipId, 8) && b[20..22] == BigEndian(f.channelNo, 2)
            && b[22..45] == f.beginTime && b[45..68] == f.endTime && b[68..76] == BigEndian(f.playLength, 8)
            && b[76..78] == BigEndian(n, 2) && b[78..78 + n] == f.fileName && b[78 + n..82 + n] == [0, 0, 0, 0]
            && b[82 + n..] == rest
  {
    hide BigEndian;
    var b := RecordBytes(f) + rest;
    assert |Front(f)| == 72;
    assert b[4..76] == Front(f);
    ZeroBytes();
    assert b[4..12] == Front(f)[..8] && b[12..20] == Front(f)[8..16] && b[20..22] == Front(f)[16..18];
    assert b[22..45] == Front(f)[18..41] && b[45..68] == Front(f)[41..64] && b[68..76] == Front(f)[64..72];
  }

  lemma ZeroBytes()
    ensures BigEndian(0, 4) == [0, 0, 0, 0]
  {
    assert BigEndian(0, 1) == [0] && BigEndian(0, 2) == [0, 0] && BigEndian(0, 3) == [0, 0, 0];
  }

  /** A record is read back whole exactly if its name's length fits in 16 bits; otherwise it is not readable at all. */
  lemma RecordRoundTripIff(f: Record, rest: seq<byte>)
    requires f.Valid() && f.Size() < 0x1_0000_0000
    ensures ParseRecord(RecordBytes(f) + rest) == if |f.fileName| < 0x1_0000 then Parsed((f, rest)) else Failed
  {
    RecordSlices(f, rest);
    hide Value, BigEndian, Signed, RecordBytes;
    PowValues();
    UnsignedRoundTrip(f.Size() - 4, 4);
    ValueOfBigEndian(|f.fileName|, 2);
    if |f.fileName| < 0x1_0000 {
      UnsignedRoundTrip(|f.fileName|, 2);
      SignedRoundTrip(f.fileID, 8);
      UnsignedRoundTrip(f.dvrEquipId, 8);
      UnsignedRoundTrip(f.channelNo, 2);
      UnsignedRoundTrip(f.playLength, 8);
    }
  }

  lemma {:induction false} RecordsFirst(fs: seq<Record>)
    requires fs != []
    ensures RecordsBytes(fs) == RecordBytes(fs[0]) + RecordsBytes(fs[1..])
    ensures TotalSize(fs) == fs[0].Size() + TotalSize(fs[1..])
    decreases |fs|
  {
    hide RecordBytes;
    var n := |fs| - 1;
    if n == 0 {
      assert fs[..0] == fs[1..] == [];
    } else {
      var front, tail := fs[..n], fs[1..];
      assert front[1..] == tail[..n - 1] && tail[n - 1] == fs[n] && front[0] == fs[0];
      assert RecordsBytes(fs) == RecordsBytes(front) + RecordBytes(fs[n]);
      assert RecordsBytes(tail) == RecordsBytes(tail[..n - 1]) + RecordBytes(fs[n]);
      assert TotalSize(fs) == TotalSize(front) + fs[n].Size() && TotalSize(tail) == TotalSize(tail[..n - 1]) + fs[n].Size();
      hide RecordsBytes, TotalSize;
      RecordsFirst(front);
      var a, b, c := RecordBytes(fs[0]), RecordsBytes(tail[..n - 1]), RecordBytes(fs[n]);
      assert a + b + c == a + (b + c);
    }
  }

  predicate NamesFit(fs: seq<Record>)
  {
    forall f <- fs :: |f.fileName| < 0x1_0000
  }

  lemma {:induction false} RecordsRoundTripIff(fs: seq<Record>)
    requires AllValid(fs) && TotalSize(fs) < 0x1_0000_0000
    ensures ParseRecords(RecordsBytes(fs), |fs|) == if NamesFit(fs) then Parsed(fs) else Failed
    decreases |fs|
  {
    hide ParseRecord, RecordBytes, RecordsBytes, TotalSize;
    if fs == [] {
      NoRecords();
    } else {
      RecordsFirst(fs);
      Small(fs[1..]);
      RecordRoundTripIff(fs[0], RecordsBytes(fs[1..]));
      RecordsRoundTripIff(fs[1..]);
      assert fs == [fs[0]] + fs[1..];
      assert NamesFit(fs) <==> |fs[0].fileName| < 0x1_0000 && NamesFit(fs[1..]);
    }
  }

  lemma NoRecords()
    ensures RecordsBytes([]) == []
  {
  }

  lemma {:induction false} Small(fs: seq<Record>)
    ensures TotalSize(fs) >= 28 + 82 * |fs|
  {
    if fs != [] {
      Small(fs[..|fs| - 1]);
    }
  }

  lemma ResponseSlices(fs: seq<Record>)
    ensures var b := OkResponse(fs);
            && |b| >= 28 && b[..4] == BigEndian(TotalSize(fs), 4) && b[4..8] == BigEndian(SEARCH_RESPONSE, 4)
            && b[20..24] == BigEndian(0, 4) && b[24..28] == BigEndian(|fs|, 4) && b[28..] == RecordsBytes(fs)
            && b[8..20] == Zeros(12)
  {
    hide BigEndian, RecordsBytes, TotalSize;
    var b := OkResponse(fs);
    assert b[..20] == Header(TotalSize(fs)) && b[8..20] == b[..20][8..20];
    assert b[..4] == b[..20][..4] && b[4..8] == b[..20][4..8];
  }

  /** The whole answer is read back, every record in order, exactly if all the names' lengths fit in 16 bits. */
  lemma ResponseRoundTripIff(fs: seq<Record>)
    requires AllValid(fs) && TotalSize(fs) < 0x8000_0000
    ensures ParseResponse(OkResponse(fs)) == if NamesFit(fs) then Parsed(fs) else Failed
    ensures ParseResponse(OkResponse(fs)) == Parsed(fs) <==> NamesFit(fs)
  {
    LengthIsTotal(fs);
    Small(fs);
    hide BigEndian, Value, RecordsBytes, TotalSize, ParseRecords;
    ResponseSlices(fs);
    hide OkResponse;
    PowValues();
    UnsignedRoundTrip(TotalSize(fs), 4);
    UnsignedRoundTrip(SEARCH_RESPONSE, 4);
    UnsignedRoundTrip(0, 4);
    UnsignedRoundTrip(|fs|, 4);
    RecordsRoundTripIff(fs);
  }

  /** Names as this program stores them, in buffers of 256 characters, always fit. */
  lemma StoredNamesFit(fs: seq<Record>)
    requires AllValid(fs) && TotalSize(fs) < 0x8000_0000 && forall f <- fs :: |f.fileName| < 256
    ensures ParseResponse(OkResponse(fs)) == Parsed(fs)
  {
    ResponseRoundTripIff(fs);
  }

  /** What a failed search is answered with: 24 bytes, which say so, the command, and the error; it is not read as an
      answer with records. */
  lemma ErrorAnswer(err: int)
    requires -0x8000_0000 <= err < 0x8000_0000
    ensures var b := ErrorResponse(err);
            && |b| == 24 && Value(b[..4]) == 24 && Value(b[4..8]) == 0x80060006 && b[8..20] == seq(12, _ => 0)
            && Signed(Value(b[20..24]), 4) == err && ParseResponse(b) == Failed
  {
    hide BigEndian, Value, Signed;
    var b := ErrorResponse(err);
    PowValues();
    UnsignedRoundTrip(24, 4);
    UnsignedRoundTrip(SEARCH_RESPONSE, 4);
    SignedRoundTrip(err, 4);
    assert b[..4] == BigEndian(24, 4) && b[4..8] == BigEndian(SEARCH_RESPONSE, 4) && b[20..24] == BigEndian(err, 4);
  }

  /** Where the parts of an answer with records stand. */
  lemma AnswerParts(fs: seq<Record>)
    requires AllValid(fs) && TotalSize(fs) < 0x8000_0000
    ensures var b := OkResponse(fs);
            && Value(b[..4]) == |b| && Value(b[4..8]) == 0x80060006 && b[8..20] == seq(12, _ => 0)
            && Value(b[20..24]) == 0 && Value(b[24..28]) == |fs| && b[28..] == RecordsBytes(fs)
  {
    LengthIsTotal(fs);
    Small(fs);
    hide BigEndian, Value, RecordsBytes, TotalSize;
    ResponseSlices(fs);
    hide OkResponse;
    PowValues();
    UnsignedRoundTrip(TotalSize(fs), 4);
    UnsignedRoundTrip(SEARCH_RESPONSE, 4);
    UnsignedRoundTrip(0, 4);
    UnsignedRoundTrip(|fs|, 4);
  }

  /** The answer with one record whose name has 65536 bytes is not read back. */
  lemma LongName()
    ensures var f := Record(1, 2, 3, seq(23, _ => 48), seq(23, _ => 48), 4, seq(0x1_0000, _ => 97));
            AllValid([f]) && TotalSize([f]) < 0x8000_0000 && ParseResponse(OkResponse([f])) == Failed
  {
    hide OkResponse, ParseResponse;
    var f := Record(1, 2, 3, seq(23, _ => 48), seq(23, _ => 48), 4, seq(0x1_0000, _ => 97));
    assert [f][..0] == [] && [f][0] == f;
    assert !NamesFit([f]);
    ResponseRoundTripIff([f]);
  }

  // ---- writing the answer

  /** Write at `pos` behind what has been written from `base` on. */
  method AppendInt(buf: array<byte>, ghost base: nat, pos: nat, v: int, size: nat) returns (next: nat)
    requires base <= pos && pos + size <= buf.Length
    modifies buf
    ensures next == pos + size && buf[base..next] == old(buf[base..pos]) + BigEndian(v, size)
    ensures buf[..base] == old(buf[..base]) && buf[next..] == old(buf[next..])
  {
    hide BigEndian;
    ghost var was := buf[..];
    EncodeInt(buf, pos, v, size);
    next := pos + size;
    Pieces(was, buf[..], base, pos, BigEndian(v, size));
  }

  method AppendBytes(buf: array<byte>, ghost base: nat, pos: nat, s: seq<byte>) returns (next: nat)
    requires base <= pos && pos + |s| <= buf.Length
    modifies buf
    ensures next == pos + |s| && buf[base..next] == old(buf[base..pos]) + s
    ensures buf[..base] == old(buf[..base]) && buf[next..] == old(buf[next..])
  {
    ghost var was := buf[..];
    CopyAt(buf, pos, s);
    next := pos + |s|;
    Pieces(was, buf[..], base, pos, s);
  }

  lemma Pieces(was: seq<byte>, now: seq<byte>, base: nat, pos: nat, s: seq<byte>)
    requires base <= pos && pos + |s| <= |was| && now == was[..pos] + s + was[pos + |s|..]
    ensures now[base..pos + |s|] == was[base..pos] + s && now[..base] == was[..base] && now[pos + |s|..] == was[pos + |s|..]
  {
  }

  /** The fields of fixed size behind the length. */
  method EncodeFront(buf: array<byte>, p: nat, f: Record) returns (pos: nat)
    requires f.Valid() && p + 72 <= buf.Length
    modifies buf
    ensures pos == p + 72 && buf[p..pos] == Front(f) && buf[..p] == old(buf[..p])
  {
    hide BigEndian;
    assert buf[p..p] == [];
    assert [] + BigEndian(f.fileID, 8) == BigEndian(f.fileID, 8);
    pos := AppendInt(buf, p, p, f.fileID, 8);
    pos := AppendInt(buf, p, pos, f.dvrEquipId, 8);
    pos := AppendInt(buf, p, pos, f.channelNo, 2);
    pos := AppendBytes(buf, p, pos, f.beginTime);
    pos := AppendBytes(buf, p, pos, f.endTime);
    pos := AppendInt(buf, p, pos, f.playLength, 8);
  }

  function Tail(f: Record): seq<byte>
  {
    Front(f) + BigEndian(|f.fileName|, 2) + f.fileName + BigEndian(0, 4)
  }

  /** encode_record_fileinfo: everything behind the length, then the length. */
  method EncodeRecord(buf: array<byte>, p: nat, f: Record) returns (size: nat)
    requires f.Valid() && p + f.Size() <= buf.Length
    modifies buf
    ensures size == f.Size()
    ensures buf[..p + size] == old(buf[..p]) + RecordBytes(f)
  {
    hide BigEndian, Front;
    var pos := EncodeFront(buf, p + 4, f);
    pos := AppendInt(buf, p + 4, pos, |f.fileName|, 2);
    pos := AppendBytes(buf, p + 4, pos, f.fileName);
    pos := AppendInt(buf, p + 4, pos, 0, 4);
    assert buf[p + 4..pos] == Tail(f);
    hide Tail;
    size := pos - p;
    ghost var was := buf[..];
    assert was[..p] == was[..p + 4][..p] == old(buf[..p + 4])[..p] == old(buf[..p]);
    EncodeInt(buf, p, size - 4, 4);
    Prefixed(was, buf[..], p, pos, BigEndian(size - 4, 4), Tail(f));
    LengthThenTail(f);
  }

  lemma LengthThenTail(f: Record)
    ensures RecordBytes(f) == BigEndian(f.Size() - 4, 4) + Tail(f)
  {
    hide BigEndian, Front;
  }

  lemma Prefixed(was: seq<byte>, now: seq<byte>, p: nat, pos: nat, front: seq<byte>, tail: seq<byte>)
    requires |front| == 4 && p + 4 <= pos <= |was| && was[p + 4..pos] == tail
    requires now == was[..p] + front + was[p + 4..]
    ensures now[..pos] == was[..p] + (front + tail) && now[pos..] == was[pos..]
  {
  }

  /** encode_response_header: the length and the command; the rest of the header is zero already. */
  method EncodeHeader(buf: array<byte>, len: nat)
    requires buf.Length >= 20 && buf[8..20] == Zeros(12)
    modifies buf
    ensures buf[..20] == Header(len) && buf[20..] == old(buf[20..])
  {
    hide BigEndian;
    EncodeInt(buf, 0, len, 4);
    ghost var was := buf[..];
    assert was[8..20] == Zeros(12) && was[..4] == BigEndian(len, 4);
    EncodeInt(buf, 4, SEARCH_RESPONSE, 4);
    assert buf[..][..4] == was[..4] && buf[..][8..] == was[8..];
    assert buf[..20] == BigEndian(len, 4) + BigEndian(SEARCH_RESPONSE, 4) + buf[8..20];
  }

  /** The first pass of encode_ok_response: the number of records and the length. */
  method Measure(fs: seq<Record>) returns (recNum: nat, bufLen: nat)
    ensures recNum == |fs| && bufLen == TotalSize(fs)
  {
    recNum, bufLen := 0, 0;
    while recNum < |fs|
      invariant recNum <= |fs| && bufLen + 28 == TotalSize(fs[..recNum])
    {
      assert fs[..recNum + 1][..recNum] == fs[..recNum];
      bufLen := bufLen + |fs[recNum].fileName| + 82;
      recNum := recNum + 1;
    }
    assert fs[..recNum] == fs;
    bufLen := bufLen + 28;
  }

  lemma PrefixGrows(fs: seq<Record>, i: nat)
    requires i < |fs|
    ensures TotalSize(fs[..i + 1]) == TotalSize(fs[..i]) + fs[i].Size()
    ensures RecordsBytes(fs[..i + 1]) == RecordsBytes(fs[..i]) + RecordBytes(fs[i])
  {
    hide RecordBytes;
    var ps := fs[..i + 1];
    assert ps[..|ps| - 1] == fs[..i] && ps[|ps| - 1] == fs[i];
  }

  lemma {:induction false} PrefixFits(fs: seq<Record>, i: nat)
    requires i <= |fs|
    ensures TotalSize(fs[..i]) <= TotalSize(fs)
    decreases |fs| - i
  {
    if i < |fs| {
      PrefixGrows(fs, i);
      PrefixFits(fs, i + 1);
    } else {
      assert fs[..i] == fs;
    }
  }

  /** encode_ok_response: as many bytes as were counted, and those of the answer. */
  method EncodeOk(fs: seq<Record>) returns (buf: array<byte>)
    requires AllValid(fs)
    ensures fresh(buf) && buf.Length == TotalSize(fs) && buf[..] == OkResponse(fs)
  {
    hide BigEndian, RecordBytes, RecordsBytes, TotalSize;
    var recNum, bufLen := Measure(fs);
    Small(fs);
    buf := new byte[bufLen](_ => 0);
    var p := 20;
    assert buf[..20] == Zeros(20);
    p := AppendInt(buf, 0, p, 0, 4);
    p := AppendInt(buf, 0, p, recNum, 4);
    ghost var front := Zeros(20) + BigEndian(0, 4) + BigEndian(recNum, 4);
    NothingWritten(fs);
    assert buf[..28] == front + RecordsBytes(fs[..0]);
    var i := 0;
    while i < |fs|
      invariant 0 <= i <= |fs| && p == TotalSize(fs[..i]) <= bufLen
      invariant buf[..p] == front + RecordsBytes(fs[..i])
    {
      PrefixGrows(fs, i);
      PrefixFits(fs, i + 1);
      var n := EncodeRecord(buf, p, fs[i]);
      assert front + RecordsBytes(fs[..i]) + RecordBytes(fs[i]) == front + (RecordsBytes(fs[..i]) + RecordBytes(fs[i]));
      p := p + n;
      i := i + 1;
    }
    assert fs[..i] == fs && buf[..] == buf[..p];
    Unstamped(buf[..], fs);
    assert buf[8..20] == Zeros(12);
    EncodeHeader(buf, bufLen);
    assert buf[..] == buf[..20] + buf[20..];
    Stamped(buf[..], fs);
  }

  /** The answer before its header is written. */
  lemma Unstamped(all: seq<byte>, fs: seq<Record>)
    requires all == Zeros(20) + BigEndian(0, 4) + BigEndian(|fs|, 4) + RecordsBytes(fs)
    ensures all[8..20] == Zeros(12) && all[20..] == BigEndian(0, 4) + BigEndian(|fs|, 4) + RecordsBytes(fs)
  {
    hide BigEndian, RecordsBytes;
    var z, a, b, c := Zeros(20), BigEndian(0, 4), BigEndian(|fs|, 4), RecordsBytes(fs);
    Regroup(z, a, b, c);
    BehindZeros(all, z, a + b + c);
  }

  lemma BehindZeros(all: seq<byte>, z: seq<byte>, tail: seq<byte>)
    requires z == Zeros(20) && all == z + tail
    ensures all[8..20] == Zeros(12) && all[20..] == tail
  {
  }

  lemma Stamped(all: seq<byte>, fs: seq<Record>)
    requires all == Header(TotalSize(fs)) + (BigEndian(0, 4) + BigEndian(|fs|, 4) + RecordsBytes(fs))
    ensures all == OkResponse(fs)
  {
    hide BigEndian, RecordsBytes, TotalSize, Header;
  }

  lemma NothingWritten(fs: seq<Record>)
    ensures TotalSize(fs[..0]) == 28 && RecordsBytes(fs[..0]) == []
  {
  }

  /** encode_error_response */
  method EncodeError(err: int) returns (buf: array<byte>)
    ensures fresh(buf) && buf[..] == ErrorResponse(err)
  {
    hide BigEndian;
    buf := new byte[24](_ => 0);
    assert buf[8..20] == Zeros(12);
    EncodeHeader(buf, 24);
    ghost var was := buf[..];
    EncodeInt(buf, 20, err, 4);
    assert was[..20] == Header(24) && was[24..] == [];
    assert was[..20] + BigEndian(err, 4) + [] == was[..20] + BigEndian(err, 4);
  }
}
