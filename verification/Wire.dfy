/** From messages to messages: encoder, TCP, reassembly and decoder together. */
module Wire {
  import opened Bytes
  import P = ProtocolPackage
  import S = Stream

  /** `bs[i]` is an encoding of `ms[i]`, for every `i`. */
  ghost predicate Sent(catalogue: P.Catalogue, ms: seq<P.Message>, bs: seq<seq<byte>>)
  {
    && |bs| == |ms|
    && (forall i :: 0 <= i < |ms| ==> P.Known(catalogue, ms[i]) && P.Wire(catalogue, ms[i], bs[i]))
  }

  lemma SentSelfSized(catalogue: P.Catalogue, ms: seq<P.Message>, bs: seq<seq<byte>>)
    requires Sent(catalogue, ms, bs)
    ensures forall i :: 0 <= i < |bs| ==> S.SelfSized(bs[i])
  {
    forall i | 0 <= i < |bs|
      ensures S.SelfSized(bs[i])
    {
      P.PackageRoundTrip(catalogue, ms[i], bs[i]);
    }
  }

  /** Decoding `b` yields `m`, with the length that was sent. */
  ghost predicate Recovered(catalogue: P.Catalogue, m: P.Message, b: seq<byte>)
  {
    P.Known(catalogue, m) && |b| >= 8 && P.Receive(catalogue, b) == P.Got(P.Expected(catalogue, m), |b|)
  }

  /** However the bytes are cut, reassembly gives back one package per message, and decoding gives back the message. */
  lemma EndToEnd(catalogue: P.Catalogue, ms: seq<P.Message>, bs: seq<seq<byte>>)
    requires Sent(catalogue, ms, bs)
    ensures S.Framed(S.Concat(bs))
    ensures |S.Frames(S.Concat(bs))| == |ms|
    ensures forall i :: 0 <= i < |ms| ==> Recovered(catalogue, ms[i], S.Frames(S.Concat(bs))[i])
  {
    SentSelfSized(catalogue, ms, bs);
    S.FramesOfConcat(bs);
    forall i | 0 <= i < |ms|
      ensures Recovered(catalogue, ms[i], S.Frames(S.Concat(bs))[i])
    {
      P.PackageRoundTrip(catalogue, ms[i], bs[i]);
    }
  }

  /** When the stream has brought the first `j` messages and `k` bytes of the next, exactly those `j` have been handed on. */
  lemma PrefixDelivers(catalogue: P.Catalogue, ms: seq<P.Message>, bs: seq<seq<byte>>, j: nat, k: nat)
    requires Sent(catalogue, ms, bs) && j < |ms| && k < |bs[j]|
    ensures |S.Concat(bs[..j])| + k <= |S.Concat(bs)|
    ensures S.Frames(S.Concat(bs)[..|S.Concat(bs[..j])| + k]) == bs[..j]
  {
    SentSelfSized(catalogue, ms, bs);
    S.FramesOfPrefix(bs, j, k);
  }

  lemma {:induction false} ConcatAppend(bs: seq<seq<byte>>, b: seq<byte>)
    ensures S.Concat(bs + [b]) == S.Concat(bs) + b
  {
    if bs != [] {
      assert (bs + [b])[1..] == bs[1..] + [b];
      ConcatAppend(bs[1..], b);
    }
  }

  /** A sender: allocate what the length function says, encode, send the whole buffer. */
  method Send(catalogue: P.Catalogue, m: P.Message) returns (b: seq<byte>)
    requires P.Known(catalogue, m)
    ensures P.Wire(catalogue, m, b)
  {
    var schema := catalogue[m[1].n];
    var len := P.CalculateLen(schema, m);
    var buf := new byte[len];
    var r := P.Encode(schema, m, buf, len);
    P.EncodedLenIff(schema, m);
    forall k | 0 <= k < |m|
      ensures P.Exact(schema[k], m[k], m)
    {
      assert P.Proper(schema[k], m[k], m, P.Stamped(m, P.EncodedLen(schema, m))[..k]);
    }
    assert buf[..r] == buf[..];
    b := buf[..];
  }

  /** All messages, one after the other, as one stream of bytes. */
  method SendAll(catalogue: P.Catalogue, ms: seq<P.Message>) returns (data: seq<byte>, ghost bs: seq<seq<byte>>)
    requires forall i :: 0 <= i < |ms| ==> P.Known(catalogue, ms[i])
    ensures Sent(catalogue, ms, bs) && data == S.Concat(bs)
  {
    data, bs := [], [];
    for i := 0 to |ms|
      invariant Sent(catalogue, ms[..i], bs)
      invariant data == S.Concat(bs)
    {
      var b := Send(catalogue, ms[i]);
      ConcatAppend(bs, b);
      data, bs := data + b, bs + [b];
    }
    assert ms[..|ms|] == ms;
  }

  lemma ExpectedIs(catalogue: P.Catalogue, m: P.Message)
    requires P.Known(catalogue, m)
    ensures |P.Expected(catalogue, m)| == |m| >= 5 && P.Expected(catalogue, m)[1..] == m[1..]
  {
  }

  /** The whole path, with reads of any sizes. */
  method SendAndReceive(catalogue: P.Catalogue, ms: seq<P.Message>) returns (got: seq<P.Message>)
    requires forall i :: 0 <= i < |ms| ==> P.Known(catalogue, ms[i])
    ensures |got| == |ms|
    ensures forall i :: 0 <= i < |ms| ==> got[i] == P.Expected(catalogue, ms[i])
    ensures forall i :: 0 <= i < |ms| ==> |got[i]| == |ms[i]| >= 5 && got[i][1..] == ms[i][1..]
  {
    hide P.Wire, P.Known, P.Receive, P.Expected, S.Frames, S.Concat, S.Framed;
    var data, bs := SendAll(catalogue, ms);
    EndToEnd(catalogue, ms, bs);
    var packages := S.Transfer(data);
    got := [];
    for i := 0 to |packages|
      invariant |got| == i
      invariant forall k :: 0 <= k < i ==> got[k] == P.Expected(catalogue, ms[k])
    {
      assert Recovered(catalogue, ms[i], packages[i]);
      var r := P.DecodePackage(catalogue, packages[i]);
      got := got + [r.m];
    }
    forall i | 0 <= i < |ms|
      ensures |got[i]| == |ms[i]| >= 5 && got[i][1..] == ms[i][1..]
    {
      ExpectedIs(catalogue, ms[i]);
    }
  }

  // ---- the message of the source's own test

  const ALARM: P.Schema :=
    P.HEADER + [P.Integer(4, false), P.FixedString(P.Held(5, 0)), P.Integer(4, false), P.FixedString(P.Held(7, 0))]

  /** "<?xml >" and "<?xml2 >", each with its NUL */
  const XML: seq<byte> := [60, 63, 120, 109, 108, 32, 62, 0]
  const XML2: seq<byte> := [60, 63, 120, 109, 108, 50, 32, 62, 0]

  function Alarm(): P.Message
  {
    [P.Number(0), P.Number(0x000B_0001), P.Number(0), P.Number(0), P.Number(0),
     P.Number(8), P.Text(XML), P.Number(9), P.Text(XML2)]
  }

  lemma AlarmFields()
    ensures P.Sendable(ALARM, Alarm())
    ensures forall i :: 0 <= i < 9 ==> P.Advance(ALARM[i], Alarm()[i], Alarm()) == if i == 6 then 8 else if i == 8 then 9 else 4
  {
    PowValues();
  }

  lemma AlarmOffsets()
    ensures P.Sendable(ALARM, Alarm())
    ensures var o := [0, 4, 8, 12, 16, 20, 24, 32, 36, 45];
            forall i :: 0 <= i <= 9 ==> P.Offset(ALARM, Alarm(), i) == o[i]
  {
    AlarmFields();
    hide P.Sendable, P.Advance, P.Offset, Alarm;
    P.OffsetMore(ALARM, Alarm(), 0);
    P.OffsetMore(ALARM, Alarm(), 1);
    P.OffsetMore(ALARM, Alarm(), 2);
    P.OffsetMore(ALARM, Alarm(), 3);
    P.OffsetMore(ALARM, Alarm(), 4);
    P.OffsetMore(ALARM, Alarm(), 5);
    P.OffsetMore(ALARM, Alarm(), 6);
    P.OffsetMore(ALARM, Alarm(), 7);
    P.OffsetMore(ALARM, Alarm(), 8);
  }

  lemma AlarmKnown(catalogue: P.Catalogue)
    requires 0x000B_0001 in catalogue && catalogue[0x000B_0001] == ALARM
    ensures P.Known(catalogue, Alarm())
  {
    AlarmOffsets();
    var m := Alarm();
    hide P.Sendable, P.Offset;
    forall i | 0 <= i < 9
      ensures P.Proper(ALARM[i], m[i], m, P.Stamped(m, 45)[..i])
    {
    }
  }

  /** The text of field i. */
  lemma AlarmField(b: seq<byte>, i: nat)
    requires P.Sendable(ALARM, Alarm()) && P.Encoding(ALARM, Alarm(), b) && 1 <= i < 9
    ensures var o := [0, 4, 8, 12, 16, 20, 24, 32, 36, 45];
            |b| == 45 && b[o[i]..o[i + 1]] == P.Written(ALARM[i], Alarm()[i], Alarm())
  {
    AlarmOffsets();
    AlarmFields();
    hide P.Sendable, P.Offset, P.Written, Alarm, P.Advance;
    assert P.FieldAt(ALARM, Alarm(), b, i);
  }

  /** On the wire: every length and number with its most significant byte first, the length of the whole in front. */
  lemma AlarmBytes(b: seq<byte>)
    requires P.Sendable(ALARM, Alarm()) && P.Encoding(ALARM, Alarm(), b)
    ensures b == [0, 0, 0, 45] + [0, 11, 0, 1] + [0, 0, 0, 0] + [0, 0, 0, 0] + [0, 0, 0, 0]
                 + [0, 0, 0, 8] + [60, 63, 120, 109, 108, 32, 62, 0] + [0, 0, 0, 9] + [60, 63, 120, 109, 108, 50, 32, 62, 0]
  {
    AlarmNumbers(b);
    AlarmTexts(b);
    hide P.Sendable, P.Encoding, Alarm;
    Cut(b, 4, 8);
    Cut(b, 8, 12);
    Cut(b, 12, 16);
    Cut(b, 16, 20);
    Cut(b, 20, 24);
    Cut(b, 24, 32);
    Cut(b, 32, 36);
    Cut(b, 36, 45);
    assert b[..45] == b;
  }

  lemma Cut(b: seq<byte>, p: nat, q: nat)
    requires p <= q <= |b|
    ensures b[..q] == b[..p] + b[p..q]
  {
  }

  lemma AlarmNumbers(b: seq<byte>)
    requires P.Sendable(ALARM, Alarm()) && P.Encoding(ALARM, Alarm(), b)
    ensures |b| == 45 && b[..4] == [0, 0, 0, 45] && b[4..8] == [0, 11, 0, 1] && b[8..12] == [0, 0, 0, 0]
    ensures b[12..16] == [0, 0, 0, 0] && b[16..20] == [0, 0, 0, 0] && b[20..24] == [0, 0, 0, 8] && b[32..36] == [0, 0, 0, 9]
  {
    hide P.Sendable, BigEndian;
    AlarmField(b, 1);
    AlarmField(b, 2);
    AlarmField(b, 3);
    AlarmField(b, 4);
    AlarmField(b, 5);
    AlarmField(b, 7);
    FourBytes(45);
    FourBytes(0x000B_0001);
    FourBytes(0);
    FourBytes(8);
    FourBytes(9);
  }

  lemma AlarmTexts(b: seq<byte>)
    requires P.Sendable(ALARM, Alarm()) && P.Encoding(ALARM, Alarm(), b)
    ensures |b| == 45 && b[24..32] == [60, 63, 120, 109, 108, 32, 62, 0] && b[36..45] == [60, 63, 120, 109, 108, 50, 32, 62, 0]
  {
    AlarmFields();
    hide P.Sendable, BigEndian;
    AlarmField(b, 6);
    AlarmField(b, 8);
    assert XML[..8] == XML && XML2[..9] == XML2;
  }

  /** The alarm message as it is sent, and as it is received. */
  method CodecTest() returns (b: seq<byte>, got: P.Message)
    ensures b == [0, 0, 0, 45] + [0, 11, 0, 1] + [0, 0, 0, 0] + [0, 0, 0, 0] + [0, 0, 0, 0]
                 + [0, 0, 0, 8] + [60, 63, 120, 109, 108, 32, 62, 0] + [0, 0, 0, 9] + [60, 63, 120, 109, 108, 50, 32, 62, 0]
    ensures got == [P.Number(45), P.Number(0x000B_0001), P.Number(0), P.Number(0), P.Number(0),
                    P.Number(8), P.Text(XML), P.Number(9), P.Text(XML2)]
  {
    var catalogue: P.Catalogue := map[0x000B_0001 := ALARM];
    AlarmKnown(catalogue);
    hide P.Known, P.Wire, P.Receive, P.Expected, S.Frames, S.Concat, S.Framed;
    b := Send(catalogue, Alarm());
    AlarmWire(catalogue, b);
    var all := SendAndReceive(catalogue, [Alarm()]);
    got := all[0];
    AlarmExpected(catalogue);
  }

  lemma AlarmWire(catalogue: P.Catalogue, b: seq<byte>)
    requires 0x000B_0001 in catalogue && catalogue[0x000B_0001] == ALARM
    requires P.Known(catalogue, Alarm()) && P.Wire(catalogue, Alarm(), b)
    ensures b == [0, 0, 0, 45] + [0, 11, 0, 1] + [0, 0, 0, 0] + [0, 0, 0, 0] + [0, 0, 0, 0]
                 + [0, 0, 0, 8] + [60, 63, 120, 109, 108, 32, 62, 0] + [0, 0, 0, 9] + [60, 63, 120, 109, 108, 50, 32, 62, 0]
  {
    AlarmBytes(b);
  }

  lemma AlarmExpected(catalogue: P.Catalogue)
    requires 0x000B_0001 in catalogue && catalogue[0x000B_0001] == ALARM && P.Known(catalogue, Alarm())
    ensures P.Expected(catalogue, Alarm()) == [P.Number(45)] + Alarm()[1..]
  {
    AlarmOffsets();
  }
}
