/** The message codec: one list of field descriptors per message drives its length, its encoder and its decoder. */
module ProtocolPackage {
  import opened Arithmetic
  import opened Bytes

  const UV_EAI_MEMORY := -3006

  /** A field's length: a constant, or the number in an earlier field less a constant. */
  datatype Length = Fixed(n: nat) | Held(index: nat, minus: nat)

  datatype Field =
    | Integer(size: nat, signed: bool)
    | FixedString(len: Length)
    | OctetString(maxLen: nat)
    | ByteArray(len: Length)
    | SkipBlock(len: Length)

  type Schema = seq<Field>

  /** What a field holds; Outside is a decoded string that the source takes to start at `from` and to have `len` bytes, not
      all of which are in the buffer. */
  datatype Content = Number(n: int) | Text(s: seq<byte>) | Skipped | Outside(from: nat, len: nat)

  type Message = seq<Content>

  /** The length that `l` stands for, or -1 where the source would compute a wrapped one. */
  function LengthOf(l: Length, m: Message): int
  {
    match l
    case Fixed(n) => n
    case Held(i, k) => if i < |m| && m[i].Number? && m[i].n >= k then m[i].n - k else -1
  }

  // ---- integers

  method EncodeInt(buf: array<byte>, p: nat, v: int, size: nat)
    requires p + size <= buf.Length
    modifies buf
    ensures buf[..] == old(buf[..p]) + BigEndian(v, size) + old(buf[p + size..])
  {
    var i := 0;
    while i < size
      invariant i <= size
      invariant forall k :: 0 <= k < buf.Length && !(p <= k < p + i) ==> buf[k] == old(buf[k])
      invariant forall k :: 0 <= k < i ==> buf[p + k] == BigEndian(v, size)[k]
    {
      BigEndianAt(v, size, i);
      buf[p + i] := v / Pow256(size - i - 1) % 256;
      i := i + 1;
    }
  }

  method DecodeInt(buf: seq<byte>, p: nat, size: nat) returns (v: nat)
    requires p + size <= |buf|
    ensures v == Value(buf[p..p + size])
  {
    v := 0;
    var i := 0;
    while i < size
      invariant i <= size
      invariant v == Value(buf[p..p + i])
    {
      assert buf[p..p + i + 1][..i] == buf[p..p + i];
      v := 256 * v + buf[p + i];
      i := i + 1;
    }
  }

  // ---- what a message needs and what its encoder writes

  predicate IntegerFits(f: Field, n: int)
    requires f.Integer?
  {
    if f.signed then -(Pow256(f.size) as int) <= 2 * n < Pow256(f.size) else 0 <= n < Pow256(f.size)
  }

  /** A value of the field's C type. */
  predicate Typed(f: Field, c: Content, m: Message)
  {
    match f
    case Integer(_, _) => c.Number? && IntegerFits(f, c.n)
    case FixedString(l) => c.Text? && LengthOf(l, m) >= 0
    case OctetString(_) => c.Text? && |c.s| >= 1
    case ByteArray(_) => c.Text?
    case SkipBlock(l) => c.Skipped? && LengthOf(l, m) >= 0
  }

  const HEADER: Schema :=
    [Integer(4, false), Integer(4, false), Integer(4, false), Integer(4, false), Integer(4, false)]

  ghost predicate Sendable(schema: Schema, m: Message)
  {
    && |m| == |schema|
    && HEADER <= schema
    && (forall i :: 0 <= i < |m| ==> Typed(schema[i], m[i], m))
  }

  /** The bytes that the length function counts and the encoder checks for. */
  function Room(f: Field, c: Content, m: Message): nat
    requires Typed(f, c, m)
  {
    match f
    case Integer(size, _) => size
    case FixedString(l) => LengthOf(l, m)
    case OctetString(_) => |c.s|
    case ByteArray(_) => |c.s|
    case SkipBlock(l) => LengthOf(l, m)
  }

  /** The bytes that the encoder moves on by. */
  function Advance(f: Field, c: Content, m: Message): nat
    requires Typed(f, c, m)
  {
    match f
    case Integer(size, _) => size
    case FixedString(l) => if |c.s| < LengthOf(l, m) then |c.s| else LengthOf(l, m)
    case OctetString(maxLen) => if |c.s| < maxLen then |c.s| else maxLen
    case ByteArray(_) => |c.s|
    case SkipBlock(l) => LengthOf(l, m)
  }

  /** The bytes of one field on the wire; those of a skipped block are not written. */
  function Written(f: Field, c: Content, m: Message): (b: seq<byte>)
    requires Typed(f, c, m) && !f.SkipBlock?
  {
    match f
    case Integer(size, _) => BigEndian(c.n, size)
    case OctetString(_) => if Advance(f, c, m) == 0 then [] else c.s[..Advance(f, c, m) - 1] + [0]
    case _ => c.s[..Advance(f, c, m)]
  }

  /** A string that is too long for its field is cut off at the field's end: an octet string still ends with a NUL there. */
  lemma LongString(f: Field, s: seq<byte>, m: Message, n: nat)
    requires (f == OctetString(n) && n > 0) || f == FixedString(Fixed(n))
    requires |s| > n
    ensures Advance(f, Text(s), m) == n && |Written(f, Text(s), m)| == n
    ensures forall k :: 0 <= k < n ==> Written(f, Text(s), m)[k] == if k == n - 1 && f.OctetString? then 0 else s[k]
  {
  }

  /** Where field `i` starts on the wire. */
  ghost function Offset(schema: Schema, m: Message, i: nat): nat
    requires Sendable(schema, m) && i <= |m|
  {
    if i == 0 then 0 else Offset(schema, m, i - 1) + Advance(schema[i - 1], m[i - 1], m)
  }

  ghost function CalculatedUpTo(schema: Schema, m: Message, i: nat): nat
    requires Sendable(schema, m) && i <= |m|
  {
    if i == 0 then 0 else CalculatedUpTo(schema, m, i - 1) + Room(schema[i - 1], m[i - 1], m)
  }

  ghost function EncodedLen(schema: Schema, m: Message): nat
    requires Sendable(schema, m)
  {
    Offset(schema, m, |m|)
  }

  ghost function CalculatedLen(schema: Schema, m: Message): nat
    requires Sendable(schema, m)
  {
    CalculatedUpTo(schema, m, |m|)
  }

  /** Field `i` stands at its place in `b`. */
  ghost predicate FieldAt(schema: Schema, m: Message, b: seq<byte>, i: nat)
    requires Sendable(schema, m) && i < |m|
  {
    var p, n := Offset(schema, m, i), Advance(schema[i], m[i], m);
    p + n <= |b| && (schema[i].SkipBlock? || b[p..p + n] == Written(schema[i], m[i], m))
  }

  /** `b` is an encoding of `m`: its own length first, then every other field at its place. */
  ghost predicate Encoding(schema: Schema, m: Message, b: seq<byte>)
    requires Sendable(schema, m)
  {
    && |b| == EncodedLen(schema, m)
    && |b| >= 4 && b[..4] == BigEndian(|b|, 4)
    && FieldsAt(schema, m, b, |m|)
  }

  /** All fields before `i`, the length field apart, stand at their places. */
  ghost predicate FieldsAt(schema: Schema, m: Message, b: seq<byte>, i: nat)
    requires Sendable(schema, m) && i <= |m|
  {
    forall k :: 1 <= k < i ==> FieldAt(schema, m, b, k)
  }

  lemma {:induction false} OffsetsOrdered(schema: Schema, m: Message, i: nat, j: nat)
    requires Sendable(schema, m) && i <= j <= |m|
    ensures Offset(schema, m, i) <= Offset(schema, m, j)
    decreases j
  {
    if i < j {
      OffsetsOrdered(schema, m, i, j - 1);
    }
  }

  lemma HeaderOffsets(schema: Schema, m: Message)
    requires Sendable(schema, m)
    ensures forall k :: 0 <= k < 5 ==> schema[k] == Integer(4, false)
    ensures forall k :: 0 <= k <= 5 ==> Offset(schema, m, k) == 4 * k
    ensures EncodedLen(schema, m) >= 20
  {
    assert forall k :: 0 <= k < 5 ==> schema[k] == HEADER[k];
    assert Offset(schema, m, 1) == 4;
    assert Offset(schema, m, 2) == 8;
    assert Offset(schema, m, 3) == 12;
    assert Offset(schema, m, 4) == 16;
    assert Offset(schema, m, 5) == 20;
    OffsetsOrdered(schema, m, 5, |m|);
  }

  /** The encoder's checks pass as long as the buffer has the calculated length; see EncodedLenIff for what it then uses. */
  lemma {:induction false} OffsetAtMostCalculated(schema: Schema, m: Message, i: nat)
    requires Sendable(schema, m) && i <= |m|
    ensures Offset(schema, m, i) <= CalculatedUpTo(schema, m, i)
    ensures Offset(schema, m, i) == CalculatedUpTo(schema, m, i)
       <==> forall k :: 0 <= k < i ==> Advance(schema[k], m[k], m) == Room(schema[k], m[k], m)
    decreases i
  {
    if i > 0 {
      OffsetAtMostCalculated(schema, m, i - 1);
    }
  }

  predicate Exact(f: Field, c: Content, m: Message)
    requires Typed(f, c, m)
  {
    match f
    case FixedString(l) => |c.s| >= LengthOf(l, m)
    case OctetString(maxLen) => |c.s| <= maxLen
    case _ => true
  }

  /** The length a sender allocates is the length it sends exactly when no fixed string is short and no octet string long. */
  lemma EncodedLenIff(schema: Schema, m: Message)
    requires Sendable(schema, m)
    ensures EncodedLen(schema, m) <= CalculatedLen(schema, m)
    ensures EncodedLen(schema, m) == CalculatedLen(schema, m) <==> forall k :: 0 <= k < |m| ==> Exact(schema[k], m[k], m)
  {
    OffsetAtMostCalculated(schema, m, |m|);
    forall k | 0 <= k < |m|
      ensures Exact(schema[k], m[k], m) <==> Advance(schema[k], m[k], m) == Room(schema[k], m[k], m)
    {
    }
  }

  /** A header and a string of two characters in a field of eight: 22 bytes are sent of the 28 allocated. */
  lemma ShortString()
    ensures var schema, m := HEADER + [FixedString(Fixed(8))], seq(5, i => Number(0)) + [Text([65, 66])];
            Sendable(schema, m) && EncodedLen(schema, m) == 22 && CalculatedLen(schema, m) == 28
  {
    var schema, m := HEADER + [FixedString(Fixed(8))], seq(5, i => Number(0)) + [Text([65, 66])];
    assert Sendable(schema, m);
    HeaderRoom(schema, m, 5);
  }

  lemma {:induction false} HeaderRoom(schema: Schema, m: Message, k: nat)
    requires Sendable(schema, m) && k <= 5
    ensures Offset(schema, m, k) == CalculatedUpTo(schema, m, k) == 4 * k
  {
    if k > 0 {
      HeaderRoom(schema, m, k - 1);
      assert schema[k - 1] == HEADER[k - 1];
    }
  }

  lemma {:induction false} CalculatedOrdered(schema: Schema, m: Message, i: nat, j: nat)
    requires Sendable(schema, m) && i <= j <= |m|
    ensures CalculatedUpTo(schema, m, i) <= CalculatedUpTo(schema, m, j)
    decreases j
  {
    if i < j {
      CalculatedOrdered(schema, m, i, j - 1);
    }
  }

  // ---- the length function and the encoder

  method CalculateLen(schema: Schema, m: Message) returns (len: nat)
    requires Sendable(schema, m)
    ensures len == CalculatedLen(schema, m)
  {
    len := 0;
    var i := 0;
    while i < |schema|
      invariant i <= |schema|
      invariant len == CalculatedUpTo(schema, m, i)
    {
      len := len + Room(schema[i], m[i], m);
      i := i + 1;
    }
  }

  method CopyAt(buf: array<byte>, p: nat, s: seq<byte>)
    requires p + |s| <= buf.Length
    modifies buf
    ensures buf[..] == old(buf[..p]) + s + old(buf[p + |s|..])
  {
    forall k | 0 <= k < |s| {
      buf[p + k] := s[k];
    }
  }

  /** css_FixedString_encode: the place is cleared and as much of the string as fits is copied. */
  method EncodeFixedString(s: seq<byte>, len: nat, buf: array<byte>, p: nat) returns (r: nat)
    requires p + len <= buf.Length
    modifies buf
    ensures r == (if |s| < len then |s| else len) && buf[..p] == old(buf[..p]) && buf[p..p + r] == s[..r]
  {
    r := if |s| < len then |s| else len;
    CopyAt(buf, p, seq(len, _ => 0));
    CopyAt(buf, p, s[..r]);
  }

  /** css_OctetString_encode: as much of the string as fits is copied, and ended by a NUL. */
  method EncodeOctetString(s: seq<byte>, maxLen: nat, buf: array<byte>, p: nat) returns (r: nat)
    requires p + |s| <= buf.Length
    modifies buf
    ensures r == (if |s| < maxLen then |s| else maxLen) && buf[..p] == old(buf[..p])
    ensures buf[p..p + r] == if r == 0 then [] else s[..r - 1] + [0]
  {
    r := if |s| < maxLen then |s| else maxLen;
    CopyAt(buf, p, s[..r]);
    if r > 0 {
      buf[p + r - 1] := 0;
      assert buf[p..p + r] == s[..r - 1] + [0];
    }
  }

  /** Write one field at `p`; what lies before `p` is untouched. */
  method EncodeField(f: Field, c: Content, m: Message, buf: array<byte>, p: nat) returns (r: nat)
    requires Typed(f, c, m)
    requires p + Room(f, c, m) <= buf.Length
    modifies buf
    ensures r == Advance(f, c, m) && p + r <= buf.Length
    ensures buf[..p] == old(buf[..p])
    ensures !f.SkipBlock? ==> buf[p..p + r] == Written(f, c, m)
  {
    match f
    case Integer(size, _) =>
      EncodeInt(buf, p, c.n, size);
      return size;
    case FixedString(l) =>
      r := EncodeFixedString(c.s, LengthOf(l, m), buf, p);
    case OctetString(maxLen) =>
      r := EncodeOctetString(c.s, maxLen, buf, p);
    case ByteArray(_) =>
      CopyAt(buf, p, c.s);
      return |c.s|;
    case SkipBlock(l) =>
      return LengthOf(l, m);
  }

  method EncodeFields(schema: Schema, m: Message, buf: array<byte>, bufLen: nat) returns (r: int)
    requires Sendable(schema, m) && bufLen <= buf.Length
    modifies buf
    ensures r == UV_EAI_MEMORY || r == EncodedLen(schema, m) <= bufLen
    ensures CalculatedLen(schema, m) <= bufLen ==> r == EncodedLen(schema, m)
    ensures r < 0 <==> exists i :: 0 <= i < |m| && Offset(schema, m, i) + Room(schema[i], m[i], m) > bufLen
    ensures r >= 0 ==> FieldsAt(schema, m, buf[..r], |m|)
  {
    hide FieldAt, Written, Exact, Offset, CalculatedUpTo, Advance, Room;
    HeaderOffsets(schema, m);
    var p := 0;
    var i := 0;
    while i < |schema|
      invariant i <= |schema|
      invariant p == Offset(schema, m, i) <= bufLen
      invariant FieldsAt(schema, m, buf[..p], i)
      invariant forall k :: 0 <= k < i ==> Offset(schema, m, k) + Room(schema[k], m[k], m) <= bufLen
    {
      OffsetMore(schema, m, i);
      RoomFor(schema, m, i);
      if p + Room(schema[i], m[i], m) > bufLen {
        return UV_EAI_MEMORY;
      }
      ghost var before := buf[..p];
      var n := EncodeField(schema[i], m[i], m, buf, p);
      FieldAdded(schema, m, before, buf[..p + n], i);
      p := p + n;
      i := i + 1;
    }
    return p;
  }

  lemma RoomFor(schema: Schema, m: Message, i: nat)
    requires Sendable(schema, m) && i < |m|
    ensures Advance(schema[i], m[i], m) <= Room(schema[i], m[i], m)
    ensures Offset(schema, m, i) + Room(schema[i], m[i], m) <= CalculatedLen(schema, m)
  {
    OffsetAtMostCalculated(schema, m, i);
    CalculatedOrdered(schema, m, i + 1, |m|);
  }

  method Encode(schema: Schema, m: Message, buf: array<byte>, bufLen: nat) returns (r: int)
    requires Sendable(schema, m) && bufLen <= buf.Length
    modifies buf
    ensures r == -3006 || r == EncodedLen(schema, m) <= bufLen
    ensures r < 0 <==> exists i :: 0 <= i < |m| && Offset(schema, m, i) + Room(schema[i], m[i], m) > bufLen
    ensures CalculatedLen(schema, m) <= bufLen ==> r == EncodedLen(schema, m)
    ensures r >= 0 ==> Encoding(schema, m, buf[..r])
  {
    hide Room, Advance, Written, FieldAt;
    r := EncodeFields(schema, m, buf, bufLen);
    if r >= 0 {
      HeaderOffsets(schema, m);
      ghost var was := buf[..];
      EncodeInt(buf, 0, r, 4);
      StampSlices(was, buf[..], BigEndian(r, 4), r);
      LengthStamped(schema, m, was[..r], buf[..r]);
    }
  }

  lemma StampSlices(was: seq<byte>, now: seq<byte>, s: seq<byte>, r: nat)
    requires |s| == 4 <= r <= |was| && now == was[..0] + s + was[4..]
    ensures r <= |now| && now[..r][4..] == was[..r][4..] && now[..r][..4] == s
  {
    assert was[..0] == [];
    assert now == s + was[4..];
  }

  /** A field written behind those that are in place. */
  lemma FieldAdded(schema: Schema, m: Message, b: seq<byte>, c: seq<byte>, i: nat)
    requires Sendable(schema, m) && i < |m|
    requires FieldsAt(schema, m, b, i) && |b| == Offset(schema, m, i)
    requires b <= c && |c| == |b| + Advance(schema[i], m[i], m)
    requires schema[i].SkipBlock? || c[|b|..] == Written(schema[i], m[i], m)
    ensures FieldsAt(schema, m, c, i + 1)
  {
    forall k | 1 <= k < i + 1
      ensures FieldAt(schema, m, c, k)
    {
      if k == i {
        assert c[|b|..] == c[|b|..|c|];
      } else {
        assert FieldAt(schema, m, b, k);
        var p, n := Offset(schema, m, k), Advance(schema[k], m[k], m);
        assert b[p..p + n] == c[p..p + n];
      }
    }
  }

  /** Overwriting the length field leaves the others in place. */
  lemma LengthStamped(schema: Schema, m: Message, b: seq<byte>, c: seq<byte>)
    requires Sendable(schema, m)
    requires |b| == |c| >= 4 && b[4..] == c[4..]
    requires FieldsAt(schema, m, b, |m|)
    ensures FieldsAt(schema, m, c, |m|)
  {
    hide Offset, Advance;
    HeaderOffsets(schema, m);
    forall k | 1 <= k < |m|
      ensures FieldAt(schema, m, c, k)
    {
      assert FieldAt(schema, m, b, k);
      OffsetsOrdered(schema, m, 1, k);
      SliceKept(b, c, Offset(schema, m, k), Advance(schema[k], m[k], m));
    }
  }

  lemma SliceKept(b: seq<byte>, c: seq<byte>, p: nat, n: nat)
    requires |b| == |c| >= 4 && b[4..] == c[4..] && 4 <= p && p + n <= |b|
    ensures b[p..p + n] == c[p..p + n]
  {
    SliceBehind(b, p, n);
    SliceBehind(c, p, n);
  }

  lemma SliceBehind(b: seq<byte>, p: nat, n: nat)
    requires 4 <= p && p + n <= |b|
    ensures b[p..p + n] == b[4..][p - 4..p - 4 + n]
  {
    var s := b[4..];
    var x, y := b[p..p + n], s[p - 4..p - 4 + n];
    forall i | 0 <= i < n
      ensures x[i] == y[i]
    {
      assert x[i] == b[p + i] && y[i] == s[p - 4 + i] == b[4 + (p - 4 + i)];
    }
  }

  // ---- the decoder

  /** Short is the source's UV_EAI_MEMORY; Stray marks a read that the source makes outside the buffer. */
  datatype Decoded = Got(m: Message, p: nat) | Short | Stray

  function FirstZero(b: seq<byte>, p: nat): (z: nat)
    requires p <= |b|
    ensures p <= z <= |b|
    ensures forall k :: p <= k < z ==> b[k] != 0
    ensures z < |b| ==> b[z] == 0
    decreases |b| - p
  {
    if p == |b| || b[p] == 0 then p else FirstZero(b, p + 1)
  }

  function ReadNumber(f: Field, s: seq<byte>): int
    requires f.Integer?
  {
    if f.signed then Signed(Value(s), f.size) else Value(s)
  }

  /** The length as the receiver computes it, in 32 bits when it comes from an earlier field; -1 if that is no number. */
  function Length32(l: Length, m: Message): (n: int)
    ensures l.Held? ==> n < UINT32
  {
    match l
    case Fixed(n) => n
    case Held(i, k) => if i < |m| && m[i].Number? then (m[i].n - k) % UINT32 else -1
  }

  /** The position behind n bytes, in 32 bits in the same case. */
  function Sum32(l: Length, p: nat, n: nat): nat
  {
    if l.Fixed? then p + n else (p + n) % UINT32
  }

  function ReadText(l: Length, m: Message, b: seq<byte>, p: nat): Decoded
  {
    var n := Length32(l, m);
    if n < 0 then Stray
    else if Sum32(l, p, n) > |b| then Short
    else Got(m + [if p + n <= |b| then Text(b[p..p + n]) else Outside(p, n)], Sum32(l, p, n))
  }

  function ReadInteger(f: Field, m: Message, b: seq<byte>, p: nat): Decoded
    requires f.Integer?
  {
    if p + f.size > |b| then Short else Got(m + [Number(ReadNumber(f, b[p..p + f.size]))], p + f.size)
  }

  function ReadOctets(m: Message, b: seq<byte>, p: nat): Decoded
  {
    if p + 1 > |b| then Short
    else
      var z := FirstZero(b, p);
      if z == |b| then Stray else Got(m + [Text(b[p..z + 1])], z + 1)
  }

  function ReadSkipped(l: Length, m: Message, b: seq<byte>, p: nat): Decoded
  {
    var n := Length32(l, m);
    if n < 0 then Stray else if Sum32(l, p, n) > |b| then Short else Got(m + [Skipped], Sum32(l, p, n))
  }

  /** The decoder's step for one field, `m` being what the earlier fields held. */
  function ReadField(f: Field, m: Message, b: seq<byte>, p: nat): (r: Decoded)
    requires p <= |b|
    ensures r.Got? ==> r.p <= |b| && |r.m| == |m| + 1 && m <= r.m
  {
    match f
    case Integer(_, _) => ReadInteger(f, m, b, p)
    case FixedString(l) => ReadText(l, m, b, p)
    case ByteArray(l) => ReadText(l, m, b, p)
    case OctetString(_) => ReadOctets(m, b, p)
    case SkipBlock(l) => ReadSkipped(l, m, b, p)
  }

  /** All fields, in order: the decoder's meaning. */
  function ReadFields(schema: Schema, i: nat, b: seq<byte>): (r: Decoded)
    requires i <= |schema|
    ensures r.Got? ==> r.p <= |b| && |r.m| == i
  {
    if i == 0 then Got([], 0)
    else
      var r := ReadFields(schema, i - 1, b);
      if r.Got? then ReadField(schema[i - 1], r.m, b, r.p) else r
  }

  method Decode(schema: Schema, b: seq<byte>) returns (r: Decoded)
    ensures r == ReadFields(schema, |schema|, b)
  {
    r := Got([], 0);
    var i := 0;
    while i < |schema|
      invariant i <= |schema|
      invariant r == ReadFields(schema, i, b) && r.Got?
    {
      r := DecodeField(schema[i], r.m, b, r.p);
      if !r.Got? {
        FailureStays(schema, i + 1, |schema|, b);
        return;
      }
      i := i + 1;
    }
  }

  /** css_FixedString_decode and css_ByteArray_decode behind their bound check: the string is handed out in place. */
  method DecodeText(l: Length, m: Message, b: seq<byte>, p: nat) returns (r: Decoded)
    ensures r == ReadText(l, m, b, p)
  {
    var n := Length32(l, m);
    if n < 0 {
      return Stray;
    }
    if Sum32(l, p, n) > |b| {
      return Short;
    }
    return Got(m + [if p + n <= |b| then Text(b[p..p + n]) else Outside(p, n)], Sum32(l, p, n));
  }

  method DecodeField(f: Field, m: Message, b: seq<byte>, p: nat) returns (r: Decoded)
    requires p <= |b|
    ensures r == ReadField(f, m, b, p)
  {
    match f
    case Integer(size, signed) =>
      if p + size > |b| {
        return Short;
      }
      var v := DecodeInt(b, p, size);
      return Got(m + [Number(if signed then Signed(v, size) else v)], p + size);
    case OctetString(_) =>
      if p + 1 > |b| {
        return Short;
      }
      var z := p;
      while z < |b| && b[z] != 0
        invariant p <= z <= |b|
        invariant FirstZero(b, p) == FirstZero(b, z)
      {
        z := z + 1;
      }
      return if z == |b| then Stray else Got(m + [Text(b[p..z + 1])], z + 1);
    case SkipBlock(l) =>
      var n := Length32(l, m);
      if n < 0 {
        return Stray;
      }
      return if Sum32(l, p, n) > |b| then Short else Got(m + [Skipped], Sum32(l, p, n));
    case FixedString(l) =>
      r := DecodeText(l, m, b, p);
    case ByteArray(l) =>
      r := DecodeText(l, m, b, p);
  }

  lemma {:induction false} FailureStays(schema: Schema, i: nat, j: nat, b: seq<byte>)
    requires i <= j <= |schema|
    requires !ReadFields(schema, i, b).Got?
    ensures ReadFields(schema, j, b) == ReadFields(schema, i, b)
    decreases j
  {
    if i < j {
      FailureStays(schema, i, j - 1, b);
    }
  }

  // ---- arbitrary bytes

  function LengthField(f: Field): (l: Length)
  {
    match f
    case FixedString(l) => l
    case ByteArray(l) => l
    case SkipBlock(l) => l
    case _ => Fixed(0)
  }

  /** The received length leads beyond what 32 bits hold. */
  predicate Wraps(f: Field, m: Message, p: nat)
  {
    LengthField(f).Held? && p + Length32(LengthField(f), m) >= UINT32
  }

  /** The field is what the bytes from p to q hold. */
  predicate Holds(f: Field, c: Content, b: seq<byte>, p: nat, q: nat)
  {
    && p <= q <= |b|
    && match c
       case Number(n) => f.Integer? && n == ReadNumber(f, b[p..q])
       case Text(s) => s == b[p..q]
       case Skipped => f.SkipBlock?
       case Outside(_, _) => false
  }

  /** One decoded field lies inside the buffer, behind the one before, unless its length wraps around: then the decoder
      goes back. */
  lemma FieldInsideIff(f: Field, m: Message, b: seq<byte>, p: nat)
    requires p <= |b| < UINT32 && ReadField(f, m, b, p).Got?
    ensures var r := ReadField(f, m, b, p);
            && (Holds(f, r.m[|m|], b, p, r.p) <==> !Wraps(f, m, p))
            && (Wraps(f, m, p) ==> r.p < p && (r.m[|m|].Outside? || r.m[|m|].Skipped?))
  {
    hide ReadNumber;
  }

  /** The field number k, with what has been read before it. */
  ghost predicate InsideAt(schema: Schema, b: seq<byte>, k: nat)
    requires k < |schema|
  {
    var r, t := ReadFields(schema, k, b), ReadFields(schema, k + 1, b);
    r.Got? && t.Got? && Holds(schema[k], t.m[k], b, r.p, t.p)
  }

  ghost predicate WrapsAt(schema: Schema, b: seq<byte>, k: nat)
    requires k < |schema|
  {
    var r := ReadFields(schema, k, b);
    r.Got? && Wraps(schema[k], r.m, r.p)
  }

  lemma {:induction false} GotBefore(schema: Schema, b: seq<byte>, k: nat, i: nat)
    requires k <= i <= |schema| && ReadFields(schema, i, b).Got?
    ensures ReadFields(schema, k, b).Got? && ReadFields(schema, k, b).m == ReadFields(schema, i, b).m[..k]
    decreases i
  {
    if k < i {
      GotBefore(schema, b, k, i - 1);
      var r, t := ReadFields(schema, i - 1, b), ReadFields(schema, i, b);
      assert r.m == t.m[..i - 1] && t.m[..i - 1][..k] == t.m[..k];
    }
  }

  /** Whatever bytes come: if they are decoded, every field lies inside the buffer, one behind the other, exactly if no
      received length leads beyond 2^32. */
  lemma FieldsInsideIff(schema: Schema, b: seq<byte>, i: nat)
    requires i <= |schema| && |b| < UINT32 && ReadFields(schema, i, b).Got?
    ensures (forall k :: 0 <= k < i ==> InsideAt(schema, b, k)) <==> (forall k :: 0 <= k < i ==> !WrapsAt(schema, b, k))
  {
    forall k | 0 <= k < i
      ensures InsideAt(schema, b, k) <==> !WrapsAt(schema, b, k)
    {
      GotBefore(schema, b, k, i);
      GotBefore(schema, b, k + 1, i);
      var r := ReadFields(schema, k, b);
      FieldInsideIff(schema[k], r.m, b, r.p);
    }
  }

  /** A length of 2^32 - 16 behind the header and itself: the string handed out is not in the buffer, and the decoder goes
      back into the header. */
  lemma WrappedLength(m: Message, b: seq<byte>)
    requires |m| == 6 && m[5] == Number(0xFFFF_FFF0) && 24 <= |b| < 0x8000_0000
    ensures ReadField(FixedString(Held(5, 0)), m, b, 24) == Got(m + [Outside(24, 0xFFFF_FFF0)], 8)
  {
  }

  // ---- the round trip

  /** What the receiver must get: the message, with the length that was sent. */
  function Stamped(m: Message, n: nat): Message
    requires |m| > 0
  {
    m[0 := Number(n)]
  }

  /** A C string with its terminator. */
  predicate Terminated(s: seq<byte>)
  {
    |s| >= 1 && s[|s| - 1] == 0 && forall k :: 0 <= k < |s| - 1 ==> s[k] != 0
  }

  /** The contract between a value and its descriptor that every sender keeps. */
  predicate Proper(f: Field, c: Content, sent: Message, seen: Message)
  {
    match f
    case Integer(_, _) => true
    case FixedString(l) => c.Text? && |c.s| == LengthOf(l, sent) == LengthOf(l, seen)
    case OctetString(maxLen) => c.Text? && 1 <= |c.s| <= maxLen && Terminated(c.s)
    case ByteArray(l) => c.Text? && |c.s| == LengthOf(l, seen)
    case SkipBlock(l) => LengthOf(l, sent) == LengthOf(l, seen)
  }

  ghost predicate WellFormed(schema: Schema, m: Message)
  {
    && Sendable(schema, m)
    && EncodedLen(schema, m) < 0x1_0000_0000
    && (forall i :: 0 <= i < |m| ==> Proper(schema[i], m[i], m, Stamped(m, EncodedLen(schema, m))[..i]))
  }

  lemma FirstZeroIs(b: seq<byte>, p: nat, z: nat)
    requires p <= z < |b| && b[z] == 0
    requires forall k :: p <= k < z ==> b[k] != 0
    ensures FirstZero(b, p) == z
  {
  }

  lemma NumberRoundTrip(f: Field, n: int)
    requires f.Integer? && IntegerFits(f, n)
    ensures ReadNumber(f, BigEndian(n, f.size)) == n
  {
    if f.signed {
      SignedRoundTrip(n, f.size);
    } else {
      UnsignedRoundTrip(n, f.size);
    }
  }

  lemma IntegerRoundTrip(f: Field, n: int, seen: Message, b: seq<byte>, p: nat)
    requires f.Integer? && IntegerFits(f, n)
    requires p + f.size <= |b| && b[p..p + f.size] == BigEndian(n, f.size)
    ensures ReadInteger(f, seen, b, p) == Got(seen + [Number(n)], p + f.size)
  {
    NumberRoundTrip(f, n);
  }

  lemma OctetsRoundTrip(s: seq<byte>, seen: Message, b: seq<byte>, p: nat)
    requires Terminated(s)
    requires p + |s| <= |b| && b[p..p + |s|] == s
    ensures ReadOctets(seen, b, p) == Got(seen + [Text(s)], p + |s|)
  {
    assert forall k :: p <= k < p + |s| ==> b[k] == s[k - p];
    FirstZeroIs(b, p, p + |s| - 1);
  }

  lemma TextRoundTrip(l: Length, s: seq<byte>, seen: Message, b: seq<byte>, p: nat)
    requires LengthOf(l, seen) == |s|
    requires p + |s| <= |b| < UINT32 && b[p..p + |s|] == s
    ensures ReadText(l, seen, b, p) == Got(seen + [Text(s)], p + |s|)
  {
  }

  /** One field, written at `p`, is read back; `seen` is what the receiver has already read. */
  lemma FieldRoundTrip(f: Field, c: Content, sent: Message, seen: Message, b: seq<byte>, p: nat)
    requires Typed(f, c, sent) && Proper(f, c, sent, seen)
    requires p + Advance(f, c, sent) <= |b| < UINT32
    requires f.SkipBlock? || b[p..p + Advance(f, c, sent)] == Written(f, c, sent)
    ensures ReadField(f, seen, b, p) == Got(seen + [c], p + Advance(f, c, sent))
  {
    hide ReadInteger, ReadOctets, ReadText, ReadSkipped, IntegerFits, Terminated;
    match f
    case Integer(_, _) => IntegerRoundTrip(f, c.n, seen, b, p);
    case OctetString(_) =>
      TerminatedWhole(c.s);
      OctetsRoundTrip(c.s, seen, b, p);
    case FixedString(l) =>
      assert c.s[..|c.s|] == c.s;
      TextRoundTrip(l, c.s, seen, b, p);
    case ByteArray(l) =>
      assert c.s[..|c.s|] == c.s;
      TextRoundTrip(l, c.s, seen, b, p);
    case SkipBlock(l) => SkippedRoundTrip(l, seen, b, p);
  }

  lemma TerminatedWhole(s: seq<byte>)
    requires Terminated(s)
    ensures s[..|s| - 1] + [0] == s
  {
  }

  lemma SkippedRoundTrip(l: Length, seen: Message, b: seq<byte>, p: nat)
    requires LengthOf(l, seen) >= 0 && p + LengthOf(l, seen) <= |b| < UINT32
    ensures ReadSkipped(l, seen, b, p) == Got(seen + [Skipped], p + LengthOf(l, seen))
  {
  }

  lemma LengthRoundTrip(schema: Schema, m: Message, b: seq<byte>)
    requires WellFormed(schema, m) && Encoding(schema, m, b)
    ensures ReadField(schema[0], [], b, 0) == Got([Number(|b|)], 4)
  {
    HeaderOffsets(schema, m);
    PowValues();
    UnsignedRoundTrip(|b|, 4);
    assert [] + [Number(|b|)] == [Number(|b|)];
  }

  /** Any other field of an encoding. */
  lemma PlacedFieldRoundTrip(schema: Schema, m: Message, b: seq<byte>, k: nat)
    requires WellFormed(schema, m) && Encoding(schema, m, b) && 1 <= k < |m|
    ensures Offset(schema, m, k) <= |b|
    ensures ReadField(schema[k], Stamped(m, |b|)[..k], b, Offset(schema, m, k))
         == Got(Stamped(m, |b|)[..k + 1], Offset(schema, m, k + 1))
  {
    var seen := Stamped(m, |b|)[..k];
    assert FieldAt(schema, m, b, k) && Proper(schema[k], m[k], m, seen);
    FieldRoundTrip(schema[k], m[k], m, seen, b, Offset(schema, m, k));
    assert Stamped(m, |b|)[..k + 1] == seen + [m[k]];
  }

  lemma {:induction false} FieldsRoundTrip(schema: Schema, m: Message, b: seq<byte>, i: nat)
    requires WellFormed(schema, m) && Encoding(schema, m, b) && 1 <= i <= |m|
    ensures ReadFields(schema, i, b) == Got(Stamped(m, |b|)[..i], Offset(schema, m, i))
    decreases i
  {
    if i == 1 {
      HeaderOffsets(schema, m);
      LengthRoundTrip(schema, m, b);
      assert ReadFields(schema, 0, b) == Got([], 0);
      assert Stamped(m, |b|)[..1] == [Number(|b|)];
    } else {
      FieldsRoundTrip(schema, m, b, i - 1);
      PlacedFieldRoundTrip(schema, m, b, i - 1);
    }
  }

  /** Decoding any encoding of a well-formed message yields it back, its length field holding the encoded length. */
  lemma MessageRoundTrip(schema: Schema, m: Message, b: seq<byte>)
    requires WellFormed(schema, m) && Encoding(schema, m, b)
    ensures ReadFields(schema, |schema|, b) == Got(Stamped(m, |b|), |b|)
  {
    FieldsRoundTrip(schema, m, b, |m|);
    assert Stamped(m, |b|)[..|m|] == Stamped(m, |b|);
  }

  // ---- encodings that are cut off

  /** The fields in front of a cut are read as they are from the whole. */
  lemma {:induction false} FieldsInFront(schema: Schema, m: Message, b: seq<byte>, k: nat, i: nat)
    requires WellFormed(schema, m) && Encoding(schema, m, b) && i <= |m| && Offset(schema, m, i) <= k <= |b|
    ensures ReadFields(schema, i, b[..k]) == Got(Stamped(m, |b|)[..i], Offset(schema, m, i))
    decreases i
  {
    hide Sendable, Encoding, Offset, ReadField;
    if i == 1 {
      FirstField(schema, m, b, k);
    } else if i > 1 {
      OffsetMore(schema, m, i - 1);
      FieldsInFront(schema, m, b, k, i - 1);
      FieldInFront(schema, m, b, k, i - 1);
    } else {
      HeaderOffsets(schema, m);
    }
  }

  lemma OffsetMore(schema: Schema, m: Message, i: nat)
    requires Sendable(schema, m) && i < |m|
    ensures Offset(schema, m, 0) == 0 && Offset(schema, m, |m|) == EncodedLen(schema, m)
    ensures Offset(schema, m, i + 1) == Offset(schema, m, i) + Advance(schema[i], m[i], m)
  {
  }

  lemma FirstField(schema: Schema, m: Message, b: seq<byte>, k: nat)
    requires WellFormed(schema, m) && Encoding(schema, m, b) && Offset(schema, m, 1) <= k <= |b|
    ensures ReadFields(schema, 1, b[..k]) == Got(Stamped(m, |b|)[..1], Offset(schema, m, 1))
  {
    HeaderOffsets(schema, m);
    PowValues();
    UnsignedRoundTrip(|b|, 4);
    assert b[..k][0..4] == b[..4];
    assert ReadFields(schema, 0, b[..k]) == Got([], 0);
    assert Stamped(m, |b|)[..1] == [] + [Number(|b|)];
  }

  lemma FieldInFront(schema: Schema, m: Message, b: seq<byte>, k: nat, i: nat)
    requires WellFormed(schema, m) && Encoding(schema, m, b) && 1 <= i < |m| && Offset(schema, m, i + 1) <= k <= |b|
    ensures ReadField(schema[i], Stamped(m, |b|)[..i], b[..k], Offset(schema, m, i))
         == Got(Stamped(m, |b|)[..i + 1], Offset(schema, m, i + 1))
  {
    var seen, p, n := Stamped(m, |b|)[..i], Offset(schema, m, i), Advance(schema[i], m[i], m);
    assert FieldAt(schema, m, b, i) && Proper(schema[i], m[i], m, seen);
    SliceInFront(b, k, p, n);
    hide Written, Proper, Typed, ReadField;
    FieldRoundTrip(schema[i], m[i], m, seen, b[..k], p);
    assert Stamped(m, |b|)[..i + 1] == seen + [m[i]];
  }

  lemma SliceInFront(b: seq<byte>, k: nat, p: nat, n: nat)
    requires p + n <= k <= |b|
    ensures b[..k][p..p + n] == b[p..p + n]
  {
  }

  /** A field that is cut off. */
  lemma FieldCut(f: Field, c: Content, sent: Message, seen: Message, b: seq<byte>, p: nat, k: nat)
    requires Typed(f, c, sent) && Proper(f, c, sent, seen)
    requires p <= k < p + Advance(f, c, sent) <= |b| < UINT32
    requires f.SkipBlock? || b[p..p + Advance(f, c, sent)] == Written(f, c, sent)
    ensures ReadField(f, seen, b[..k], p) == if f.OctetString? && k > p then Stray else Short
  {
    hide ReadOctets, ReadText, ReadSkipped, IntegerFits, Terminated;
    match f
    case Integer(_, _) =>
    case OctetString(_) =>
      TerminatedWhole(c.s);
      assert b[..k][p..] == b[p..p + |c.s|][..k - p];
      OctetsCut(c.s, seen, b[..k], p);
    case FixedString(l) => LengthCut(l, seen, b[..k], p);
    case ByteArray(l) => LengthCut(l, seen, b[..k], p);
    case SkipBlock(l) => LengthCut(l, seen, b[..k], p);
  }

  lemma OctetsCut(s: seq<byte>, seen: Message, b: seq<byte>, p: nat)
    requires Terminated(s) && p <= |b| < p + |s| && b[p..] == s[..|b| - p]
    ensures ReadOctets(seen, b, p) == if |b| > p then Stray else Short
  {
    assert forall j :: p <= j < |b| ==> b[j] == b[p..][j - p] == s[j - p];
  }

  lemma LengthCut(l: Length, seen: Message, b: seq<byte>, p: nat)
    requires p <= |b| < p + LengthOf(l, seen) < UINT32
    ensures ReadText(l, seen, b, p) == ReadSkipped(l, seen, b, p) == Short
  {
  }

  lemma CutField(schema: Schema, m: Message, b: seq<byte>, k: nat, i: nat)
    requires WellFormed(schema, m) && Encoding(schema, m, b) && i < |m|
    requires Offset(schema, m, i) <= k < Offset(schema, m, i + 1)
    ensures k < |b|
    ensures ReadField(schema[i], Stamped(m, |b|)[..i], b[..k], Offset(schema, m, i))
         == if schema[i].OctetString? && k > Offset(schema, m, i) then Stray else Short
  {
    OffsetsOrdered(schema, m, i + 1, |m|);
    var seen := Stamped(m, |b|)[..i];
    if i == 0 {
      HeaderOffsets(schema, m);
    } else {
      assert FieldAt(schema, m, b, i) && Proper(schema[i], m[i], m, seen);
      hide Written, Proper, Typed, ReadField;
      FieldCut(schema[i], m[i], m, seen, b, Offset(schema, m, i), k);
    }
  }

  lemma {:induction false} FieldOfByte(schema: Schema, m: Message, k: nat, n: nat) returns (i: nat)
    requires Sendable(schema, m) && n <= |m| && k < Offset(schema, m, n)
    ensures i < n && Offset(schema, m, i) <= k < Offset(schema, m, i + 1)
    decreases n
  {
    if Offset(schema, m, n - 1) <= k {
      i := n - 1;
    } else {
      i := FieldOfByte(schema, m, k, n - 1);
    }
  }

  /** Wherever an encoding is cut off, decoding what is there of it fails at the field i of the cut: with UV_EAI_MEMORY,
      unless the cut is inside an octet string, whose end is then looked for behind the buffer. */
  lemma TruncatedRefused(schema: Schema, m: Message, b: seq<byte>, k: nat) returns (i: nat)
    requires WellFormed(schema, m) && Encoding(schema, m, b) && k < |b|
    ensures i < |m| && Offset(schema, m, i) <= k < Offset(schema, m, i + 1)
    ensures ReadFields(schema, |schema|, b[..k])
         == if schema[i].OctetString? && k > Offset(schema, m, i) then Stray else Short
  {
    i := FieldOfByte(schema, m, k, |m|);
    CutField(schema, m, b, k, i);
    FieldsInFront(schema, m, b, k, i);
    hide Sendable, Encoding, Offset, ReadField;
    FailureStays(schema, i + 1, |schema|, b[..k]);
  }

  // ---- the header alone

  method DecodeHeader(b: seq<byte>) returns (r: Decoded)
    ensures r == if |b| < 20 then Short else ReadFields(HEADER, 5, b)
  {
    if |b| < 20 {
      return Short;
    }
    r := Got([], 0);
    var i := 0;
    while i < 5
      invariant i <= 5
      invariant r == ReadFields(HEADER, i, b) && r.Got? && r.p == 4 * i
    {
      var v := DecodeInt(b, r.p, 4);
      r := Got(r.m + [Number(v)], r.p + 4);
      i := i + 1;
    }
  }

  lemma {:induction false} ReadsOnlyPrefix(s: Schema, t: Schema, i: nat, b: seq<byte>)
    requires i <= |s| && i <= |t| && s[..i] == t[..i]
    ensures ReadFields(s, i, b) == ReadFields(t, i, b)
  {
    if i > 0 {
      assert s[..i - 1] == s[..i][..i - 1] == t[..i][..i - 1] == t[..i - 1];
      assert s[i - 1] == s[..i][i - 1] == t[..i][i - 1] == t[i - 1];
      ReadsOnlyPrefix(s, t, i - 1, b);
    }
  }

  // ---- dispatch on the command id

  type Catalogue = map<uint32, Schema>

  function CommandId(b: seq<byte>): uint32
    requires |b| >= 8
  {
    BigEndianOfValue(b[4..8]);
    PowValues();
    Value(b[4..8])
  }

  /** css_proto_package_decode; an unknown command gives None (the source returns 0). */
  function Receive(catalogue: Catalogue, b: seq<byte>): (r: Decoded)
    requires |b| >= 8
  {
    if CommandId(b) in catalogue then ReadFields(catalogue[CommandId(b)], |catalogue[CommandId(b)]|, b) else Got([], 0)
  }

  method DecodePackage(catalogue: Catalogue, b: seq<byte>) returns (r: Decoded)
    requires |b| >= 8
    ensures r == Receive(catalogue, b)
  {
    var id := DecodeInt(b, 4, 4);
    if id in catalogue {
      r := Decode(catalogue[id], b);
    } else {
      r := Got([], 0);
    }
  }

  ghost predicate Known(catalogue: Catalogue, m: Message)
  {
    && |m| >= 5 && m[1].Number? && 0 <= m[1].n < 0x1_0000_0000
    && m[1].n in catalogue && WellFormed(catalogue[m[1].n], m)
  }

  /** What the receiver of `m` must end up with. */
  ghost function Expected(catalogue: Catalogue, m: Message): Message
    requires Known(catalogue, m)
  {
    Stamped(m, EncodedLen(catalogue[m[1].n], m))
  }

  ghost predicate Wire(catalogue: Catalogue, m: Message, b: seq<byte>)
    requires Known(catalogue, m)
  {
    Encoding(catalogue[m[1].n], m, b)
  }

  /** The receiver finds the schema from the bytes alone. */
  lemma PackageRoundTrip(catalogue: Catalogue, m: Message, b: seq<byte>)
    requires Known(catalogue, m) && Wire(catalogue, m, b)
    ensures |b| >= 20 && Value(b[..4]) == |b|
    ensures Receive(catalogue, b) == Got(Expected(catalogue, m), |b|)
    ensures ReadFields(HEADER, 5, b) == Got(Expected(catalogue, m)[..5], 20)
  {
    var schema := catalogue[m[1].n];
    HeaderOffsets(schema, m);
    FieldsRoundTrip(schema, m, b, 5);
    assert schema[..5] == HEADER[..5];
    ReadsOnlyPrefix(schema, HEADER, 5, b);
    PowValues();
    UnsignedRoundTrip(|b|, 4);
    assert FieldAt(schema, m, b, 1);
    UnsignedRoundTrip(m[1].n, 4);
    MessageRoundTrip(schema, m, b);
  }

  /** Nor is a package that is cut off taken for a message. */
  lemma CutPackageRefused(catalogue: Catalogue, m: Message, b: seq<byte>, k: nat)
    requires Known(catalogue, m) && Wire(catalogue, m, b) && 8 <= k < |b|
    ensures Receive(catalogue, b[..k]) == Short || Receive(catalogue, b[..k]) == Stray
    ensures (forall f <- catalogue[m[1].n] :: !f.OctetString?) ==> Receive(catalogue, b[..k]) == Short
  {
    var schema := catalogue[m[1].n];
    HeaderOffsets(schema, m);
    PowValues();
    assert FieldAt(schema, m, b, 1);
    UnsignedRoundTrip(m[1].n, 4);
    assert b[..k][4..8] == b[4..8];
    var i := TruncatedRefused(schema, m, b, k);
    assert schema[i] in schema;
  }
}
