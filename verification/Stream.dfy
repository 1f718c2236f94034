/** Reassembly of length-prefixed packages from the pieces in which TCP hands them over. */
module Stream {
  import opened Bytes

  const UV_EAI_MEMORY := -3006

  /** What the on_data callback is told: a whole package, or an error code. */
  datatype Event = Package(bytes: seq<byte>) | Failure(code: int)

  // ---- what a byte stream means

  /** A package that carries its own length. */
  predicate SelfSized(b: seq<byte>)
  {
    |b| >= 5 && Value(b[..4]) == |b|
  }

  /** `b` starts with a whole package. */
  ghost predicate HasPackage(b: seq<byte>)
  {
    |b| >= 4 && 5 <= Value(b[..4]) <= |b|
  }

  ghost function HeadLen(b: seq<byte>): (n: nat)
    requires HasPackage(b)
    ensures 5 <= n <= |b|
  {
    Value(b[..4])
  }

  /** The complete packages at the front of `b`. */
  ghost function Frames(b: seq<byte>): seq<seq<byte>>
    decreases |b|
  {
    if HasPackage(b) then [b[..HeadLen(b)]] + Frames(b[HeadLen(b)..]) else []
  }

  /** The bytes behind them. */
  ghost function Rest(b: seq<byte>): (r: seq<byte>)
    ensures |r| <= |b|
    decreases |b|
  {
    if HasPackage(b) then Rest(b[HeadLen(b)..]) else b
  }

  /** Every length that `b` declares leaves room for a byte behind it, as the reassembly needs. */
  ghost predicate Framed(b: seq<byte>)
    decreases |b|
  {
    if HasPackage(b) then Framed(b[HeadLen(b)..]) else |b| >= 4 ==> Value(b[..4]) >= 5
  }

  function Concat(bs: seq<seq<byte>>): seq<byte>
  {
    if bs == [] then [] else bs[0] + Concat(bs[1..])
  }

  lemma HeadKept(b: seq<byte>, c: seq<byte>)
    requires HasPackage(b)
    ensures HasPackage(b + c) && HeadLen(b + c) == HeadLen(b)
    ensures (b + c)[..HeadLen(b)] == b[..HeadLen(b)]
    ensures (b + c)[HeadLen(b)..] == b[HeadLen(b)..] + c
  {
    assert (b + c)[..4] == b[..4];
  }

  /** Parsing can be resumed: only the unfinished bytes matter. */
  lemma {:induction false} Resume(b: seq<byte>, c: seq<byte>)
    ensures Frames(b + c) == Frames(b) + Frames(Rest(b) + c)
    ensures Rest(b + c) == Rest(Rest(b) + c)
    decreases |b|
  {
    if HasPackage(b) {
      var n := HeadLen(b);
      HeadKept(b, c);
      Resume(b[n..], c);
      assert Frames(b + c) == [b[..n]] + Frames(b[n..] + c);
      assert Frames(b) == [b[..n]] + Frames(b[n..]);
      assert Rest(b) == Rest(b[n..]);
    }
  }

  /** A length that becomes complete behind `b` in a framed stream is at least 5. */
  lemma {:induction false} DeclaredLength(b: seq<byte>, c: seq<byte>)
    requires Framed(b + c) && |Rest(b) + c| >= 4
    ensures Value((Rest(b) + c)[..4]) >= 5
    decreases |b|
  {
    if HasPackage(b) {
      HeadKept(b, c);
      DeclaredLength(b[HeadLen(b)..], c);
    }
  }

  lemma OnePackage(b: seq<byte>, c: seq<byte>)
    requires SelfSized(b)
    ensures HasPackage(b + c) && HeadLen(b + c) == |b|
    ensures (b + c)[..|b|] == b && (b + c)[|b|..] == c
  {
    assert (b + c)[..4] == b[..4];
  }

  /** Packages of five bytes or more, each with its own length in its first four, are cut apart as they were joined. */
  lemma {:induction false} FramesOfConcat(bs: seq<seq<byte>>)
    requires forall i :: 0 <= i < |bs| ==> |bs[i]| >= 5 && Value(bs[i][..4]) == |bs[i]|
    ensures Frames(Concat(bs)) == bs && Rest(Concat(bs)) == [] && Framed(Concat(bs))
  {
    if bs != [] {
      FramesOfConcat(bs[1..]);
      OnePackage(bs[0], Concat(bs[1..]));
    }
  }

  lemma {:induction false} ConcatSplit(bs: seq<seq<byte>>, j: nat)
    requires j <= |bs|
    ensures Concat(bs) == Concat(bs[..j]) + Concat(bs[j..])
  {
    if j > 0 {
      assert bs[..j][1..] == bs[1..][..j - 1] && bs[j..] == bs[1..][j - 1..];
      ConcatSplit(bs[1..], j - 1);
    }
  }

  lemma PartOfPackage(b: seq<byte>, k: nat)
    requires SelfSized(b) && k < |b|
    ensures Frames(b[..k]) == []
  {
    if k >= 4 {
      assert b[..k][..4] == b[..4];
    }
  }

  lemma ConcatPrefix(bs: seq<seq<byte>>, j: nat, k: nat)
    requires j < |bs| && k <= |bs[j]|
    ensures |Concat(bs[..j])| + k <= |Concat(bs)|
    ensures Concat(bs)[..|Concat(bs[..j])| + k] == Concat(bs[..j]) + bs[j][..k]
  {
    ConcatSplit(bs, j);
    assert bs[j..][1..] == bs[j + 1..];
    assert Concat(bs[j..]) == bs[j] + Concat(bs[j + 1..]);
  }

  /** After any byte prefix exactly the complete packages are there: `j` of them, and part of the next. */
  lemma FramesOfPrefix(bs: seq<seq<byte>>, j: nat, k: nat)
    requires forall i :: 0 <= i < |bs| ==> SelfSized(bs[i])
    requires j < |bs|
    requires k < |bs[j]|
    ensures |Concat(bs[..j])| + k <= |Concat(bs)|
    ensures Frames(Concat(bs)[..|Concat(bs[..j])| + k]) == bs[..j]
  {
    ConcatPrefix(bs, j, k);
    FramesOfConcat(bs[..j]);
    Resume(Concat(bs[..j]), bs[j][..k]);
    assert [] + bs[j][..k] == bs[j][..k];
    PartOfPackage(bs[j], k);
  }

  /** The callbacks that a stream of bytes calls for. */
  ghost predicate Told(es: seq<Event>, b: seq<byte>)
  {
    && |es| == |Frames(b)|
    && (forall i :: 0 <= i < |es| ==> es[i] == Package(Frames(b)[i]))
  }

  lemma NothingComplete(es: seq<Event>, b: seq<byte>, c: seq<byte>)
    requires Told(es, b) && !HasPackage(Rest(b) + c)
    ensures Told(es, b + c) && Rest(b + c) == Rest(b) + c
  {
    Resume(b, c);
  }

  lemma OneComplete(es: seq<Event>, b: seq<byte>, c: seq<byte>)
    requires Told(es, b) && SelfSized(Rest(b) + c)
    ensures Told(es + [Package(Rest(b) + c)], b + c) && Rest(b + c) == []
  {
    Resume(b, c);
    var p := Rest(b) + c;
    assert p[|p|..] == [] && p[..|p|] == p;
    assert Frames(p) == [p];
  }

  // ---- css_stream_t

  class Stream {
    var buf: array?<byte>
    const lenBytes: array<byte>
    var position: nat
    var packageLen: nat
    var readingHead: bool

    ghost var received: seq<byte>
    var delivered: seq<Event>  // the calls of on_data, in order
    ghost var failed: bool

    ghost predicate Valid()
      reads this, buf, lenBytes
    {
      && Shaped()
      && Rest(received) == Pending()
      && Told(delivered, received)
    }

    /** While a length is read there is no buffer; afterwards the buffer has that length. */
    ghost predicate Shaped()
      reads this, buf, lenBytes
    {
      && lenBytes.Length == 4
      && buf != lenBytes
      && (readingHead ==> buf == null && position < 4)
      && (!readingHead ==>
            && buf != null && buf.Length == packageLen && 4 <= position <= packageLen
            && (position < packageLen || packageLen == 4) && Value(buf[..4]) == packageLen)
    }

    /** The bytes of the package being assembled. */
    ghost function Pending(): seq<byte>
      requires Shaped()
      reads this, buf, lenBytes
    {
      if readingHead then lenBytes[..position] else buf[..position]
    }

    constructor ()
      ensures Valid() && !failed && received == [] && delivered == []
      ensures fresh(lenBytes) && buf == null
    {
      buf := null;
      lenBytes := new byte[4](_ => 0);
      position, packageLen, readingHead := 0, 0, true;
      received, delivered, failed := [], [], false;
    }

    /** alloc_cb: the room that the next read may fill. */
    function AllocLen(): int
      reads this
    {
      if readingHead then 4 - position else packageLen - position
    }

    /** read_cb for a positive count: `chunk` has been stored where alloc_cb said.
        A declared length of 1 to 3 makes the source write past its buffer and is excluded. */
    method OnRead(chunk: seq<byte>)
      requires Valid() && !failed
      requires 1 <= |chunk| <= AllocLen()
      requires readingHead && position + |chunk| == 4 ==>
                 var n := Value(lenBytes[..position] + chunk); n == 0 || n >= 4
      modifies this, lenBytes, buf
      ensures received == old(received) + chunk
      ensures !failed ==> Valid()
      ensures failed <==> old(readingHead) && old(position) + |chunk| == 4 && Value(old(lenBytes[..position]) + chunk) == 0
      ensures failed ==> delivered == old(delivered) + [Failure(-3006)]
      ensures buf == null || buf == old(buf) || fresh(buf)
    {
      if buf == null {
        HeadRead(chunk);
      } else {
        BodyRead(chunk);
      }
      received := received + chunk;
    }

    /** read_cb while the four length bytes are still coming in. */
    method HeadRead(chunk: seq<byte>)
      requires Valid() && !failed && readingHead
      requires 1 <= |chunk| <= 4 - position
      requires position + |chunk| == 4 ==> var n := Value(lenBytes[..position] + chunk); n == 0 || n >= 4
      modifies this, lenBytes
      ensures received == old(received)
      ensures failed <==> old(position) + |chunk| == 4 && Value(old(Pending()) + chunk) == 0
      ensures !failed ==> Shaped() && Told(delivered, received + chunk) && Rest(received + chunk) == Pending()
      ensures failed ==> delivered == old(delivered) + [Failure(UV_EAI_MEMORY)]
      ensures buf == null || fresh(buf)
    {
      StoreHead(chunk);
      ghost var now := Rest(received) + chunk;
      assert now == lenBytes[..position + |chunk|];
      if position + |chunk| < 4 {
        position := position + |chunk|;
        NothingComplete(delivered, received, chunk);
        return;
      }
      var len := DecodeLen();
      assert lenBytes[..] == now == now[..4];
      if len == 0 {
        delivered := delivered + [Failure(UV_EAI_MEMORY)];
        failed := true;
        return;
      }
      NothingComplete(delivered, received, chunk);
      packageLen, position, readingHead := len, 4, false;
      buf := NewBody(len);
    }

    /** A package buffer that already holds its length. */
    method NewBody(len: nat) returns (b: array<byte>)
      requires lenBytes.Length == 4 && len >= 4
      ensures fresh(b) && b.Length == len && b[..4] == lenBytes[..]
    {
      b := new byte[len](_ => 0);
      b[0], b[1], b[2], b[3] := lenBytes[0], lenBytes[1], lenBytes[2], lenBytes[3];
    }

    /** read_cb once the length is known. */
    method BodyRead(chunk: seq<byte>)
      requires Valid() && !failed && !readingHead
      requires 1 <= |chunk| <= packageLen - position
      modifies this, buf
      ensures received == old(received) && !failed && (buf == null || buf == old(buf))
      ensures Shaped() && Told(delivered, received + chunk) && Rest(received + chunk) == Pending()
    {
      StoreBody(chunk);
      ghost var now := Rest(received) + chunk;
      position := position + |chunk|;
      assert now == buf[..position];
      assert now[..4] == buf[..4] == old(buf[..4]);
      if position == packageLen {
        assert now == buf[..];
        OneComplete(delivered, received, chunk);
        delivered := delivered + [Package(buf[..])];
        buf := null;
        position, packageLen := 0, 0;
        readingHead := true;
      } else {
        NothingComplete(delivered, received, chunk);
      }
    }

    /** The kernel fills the head. */
    method StoreHead(chunk: seq<byte>)
      requires lenBytes.Length == 4 && position + |chunk| <= 4
      modifies lenBytes
      ensures lenBytes[..position + |chunk|] == old(lenBytes[..position]) + chunk
    {
      forall k | 0 <= k < |chunk| {
        lenBytes[position + k] := chunk[k];
      }
    }

    /** The kernel fills the body. */
    method StoreBody(chunk: seq<byte>)
      requires buf != null && position + |chunk| <= buf.Length
      modifies buf
      ensures buf[..position + |chunk|] == old(buf[..position]) + chunk
    {
      forall k | 0 <= k < |chunk| {
        buf[position + k] := chunk[k];
      }
    }

    method DecodeLen() returns (len: nat)
      requires lenBytes.Length == 4
      ensures len == Value(lenBytes[..])
    {
      len := 0;
      var i := 0;
      while i < 4
        invariant i <= 4 && len == Value(lenBytes[..i])
      {
        assert lenBytes[..i + 1][..i] == lenBytes[..i];
        len := 256 * len + lenBytes[i];
        i := i + 1;
      }
      assert lenBytes[..4] == lenBytes[..];
    }

    /** read_cb for a negative count. */
    method OnError(code: int)
      requires code < 0 && lenBytes.Length == 4
      modifies this
      ensures delivered == old(delivered) + [Failure(code)]
      ensures buf == null && readingHead && AllocLen() == 4
    {
      delivered := delivered + [Failure(code)];
      failed := true;
      buf := null;
      position, packageLen := 0, 0;
      readingHead := true;
    }
  }

  /** One read of a size that the stream offers room for and the sender has filled. */
  method ReadSome(s: Stream, data: seq<byte>, k: nat) returns (n: nat)
    requires Framed(data) && k < |data|
    requires s.Valid() && !s.failed && s.received == data[..k]
    modifies s, s.lenBytes, s.buf
    ensures 1 <= n && k + n <= |data|
    ensures s.Valid() && !s.failed && s.received == data[..k + n]
    ensures s.buf == null || s.buf == old(s.buf) || fresh(s.buf)
  {
    ghost var done, ahead := data[..k], data[k..];
    assert done + ahead == data;
    ghost var all := Rest(done) + ahead;
    if |all| >= 4 {
      DeclaredLength(done, ahead);
    }
    if !s.readingHead {
      assert all[..4] == s.buf[..4];
    }
    n :| 1 <= n <= s.AllocLen() && k + n <= |data|;
    var chunk := data[k..k + n];
    if s.readingHead && s.position + n == 4 {
      assert all[..4] == s.lenBytes[..s.position] + chunk;
    }
    s.OnRead(chunk);
    assert data[..k] + chunk == data[..k + n];
  }

  /** Hand `data` to a fresh stream in reads of any sizes. */
  method Transfer(data: seq<byte>) returns (packages: seq<seq<byte>>)
    requires Framed(data)
    ensures packages == Frames(data)
  {
    var s := new Stream();
    var k := 0;
    while k < |data|
      invariant k <= |data|
      invariant s.Valid() && !s.failed && s.received == data[..k]
      invariant fresh(s) && fresh(s.lenBytes) && (s.buf != null ==> fresh(s.buf))
      decreases |data| - k
    {
      var n := ReadSome(s, data, k);
      k := k + n;
    }
    assert data[..k] == data;
    packages := [];
    for i := 0 to |s.delivered|
      invariant packages == Frames(data)[..i]
    {
      packages := packages + [s.delivered[i].bytes];
    }
  }
}
