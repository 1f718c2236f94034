/** The body of an HTTP response, plain or in chunks. */
module RestClient {
  import opened CString
  import opened Arithmetic
  import opened IntegerText

  const CRLF := "\r\n"
  const BLANK_LINE := "\r\n\r\n"
  const CHUNKED := "Transfer-Encoding: chunked\r\n"

  const RESPONSE_BUFF_LEN := 20 * 1024

  // ---- hexadecimal numbers

  /** The value of a hexadecimal digit, or -1. */
  function Hex(c: char): int
  {
    if '0' <= c <= '9' then c as int - '0' as int
    else if 'a' <= c <= 'f' then c as int - 'a' as int + 10
    else if 'A' <= c <= 'F' then c as int - 'A' as int + 10
    else -1
  }

  predicate AllHex(s: string)
  {
    forall c <- s :: Hex(c) >= 0
  }

  function HexValue(s: string): nat
    requires AllHex(s)
  {
    if s == "" then 0
    else
      assert Hex(s[|s| - 1]) >= 0;
      HexValue(s[..|s| - 1]) * 16 + Hex(s[|s| - 1])
  }

  predicate LineEnds(s: string)
  {
    forall c <- s :: c == '\r' || c == '\n'
  }

  /** The digits in either case, and no others. */
  lemma HexDigits(d: nat, c: char)
    requires d < 16
    ensures Hex("0123456789abcdef"[d]) == d && Hex("0123456789ABCDEF"[d]) == d
    ensures Hex(c) >= 0 <==> c in "0123456789abcdefABCDEF"
  {
    assert d == 0 || d == 1 || d == 2 || d == 3 || d == 4 || d == 5 || d == 6 || d == 7 || d == 8 || d == 9 || d == 10
        || d == 11 || d == 12 || d == 13 || d == 14 || d == 15;
    var digits := "0123456789abcdefABCDEF";
    forall i | 0 <= i < 22
      ensures Hex(digits[i]) >= 0
    {
    }
    if '0' <= c <= '9' {
      assert c == digits[c as int - '0' as int];
    } else if 'a' <= c <= 'f' {
      assert c == digits[10 + (c as int - 'a' as int)];
    } else if 'A' <= c <= 'F' {
      assert c == digits[16 + (c as int - 'A' as int)];
    }
  }

  /** A number as it is printed in base 16 is read back. */
  lemma {:induction false} HexOfPrinted(n: nat)
    ensures AllHex(Unsigned(n, 16)) && HexValue(Unsigned(n, 16)) == n
    decreases n
  {
    hide Hex, Digit;
    var d := n % 16;
    DigitIs(d);
    HexDigits(d, '0');
    assert Digit(d) == "0123456789abcdef"[d];
    if n < 16 {
      OneMore("", Digit(n));
      NoDigits();
      assert "" + [Digit(n)] == [Digit(n)];
    } else {
      Smaller(n, 16);
      HexOfPrinted(n / 16);
      OneMore(Unsigned(n / 16, 16), Digit(d));
      Divided(n, 16);
    }
  }

  function Capital(c: char): char
  {
    if 'a' <= c <= 'f' then (c as int - 'a' as int + 'A' as int) as char else c
  }

  function Capitals(s: string): (r: string)
    ensures |r| == |s| && forall i :: 0 <= i < |s| ==> r[i] == Capital(s[i])
  {
    seq(|s|, i requires 0 <= i < |s| => Capital(s[i]))
  }

  /** And so it is in capitals. */
  lemma {:induction false} HexOfCapitals(s: string)
    requires AllHex(s)
    ensures AllHex(Capitals(s)) && HexValue(Capitals(s)) == HexValue(s)
    ensures Capitals("0123456789abcdef") == "0123456789ABCDEF"
  {
    if s != "" {
      var n := |s| - 1;
      assert s[n] in s && forall c <- s[..n] :: c in s;
      HexOfCapitals(s[..n]);
      assert Capitals(s)[..n] == Capitals(s[..n]) && Hex(Capital(s[n])) == Hex(s[n]);
      assert Capitals(s) == Capitals(s[..n]) + [Capital(s[n])];
    }
  }

  // ---- the size line of a chunk

  /** Behind the line ends at p. */
  function LeadEnd(t: string, p: nat): (q: nat)
    ensures p <= q && (p <= |t| ==> q <= |t|)
    decreases |t| - p
  {
    if p < |t| && (t[p] == '\r' || t[p] == '\n') then LeadEnd(t, p + 1) else p
  }

  /** The hexadecimal digits at p. */
  function SizeText(t: string, p: nat): (s: string)
    ensures AllHex(s) && (s != "" ==> p + |s| <= |t|)
    decreases |t| - p
  {
    if p < |t| && Hex(t[p]) >= 0 then [t[p]] + SizeText(t, p + 1) else ""
  }

  /** The number behind any line ends at p; 0 if there is none. */
  function Size(t: string, p: nat): nat
  {
    HexValue(SizeText(t, LeadEnd(t, p)))
  }

  /** What the source takes for the text behind the number's line end. */
  function Next(t: string, p: nat): (q: nat)
    ensures q >= p + 2
  {
    var q := LeadEnd(t, p);
    q + |SizeText(t, q)| + 2
  }

  /** hexstr2int: the number at p, and how far the text behind its own line end is. */
  method HexStr2Int(t: string, p: nat) returns (value: nat, length: nat)
    ensures value == Size(t, p) && p + length == Next(t, p)
  {
    hide HexValue, LeadEnd, SizeText;
    length := 0;
    LeadStep(t, p);
    while At(t, p + length) == '\r' || At(t, p + length) == '\n'
      invariant LeadEnd(t, p) == LeadEnd(t, p + length)
      decreases |t| - (p + length)
    {
      LeadStep(t, p + length);
      length := length + 1;
    }
    LeadStep(t, p + length);
    value := 0;
    ghost var q, s := p + length, "";
    NoDigits();
    assert "" + SizeText(t, q) == SizeText(t, q);
    while Hex(At(t, p + length)) >= 0
      invariant SizeText(t, q) == s + SizeText(t, p + length) && p + length == q + |s|
      invariant AllHex(s) && value == HexValue(s)
      decreases |t| - (p + length)
    {
      var c := At(t, p + length);
      DigitStep(t, p + length, s);
      OneMore(s, c);
      s := s + [c];
      value := value * 16 + Hex(c);
      length := length + 1;
    }
    DigitStep(t, p + length, s);
    length := length + 2;
  }

  lemma LeadStep(t: string, p: nat)
    ensures LeadEnd(t, p) == if At(t, p) == '\r' || At(t, p) == '\n' then LeadEnd(t, p + 1) else p
    ensures At(t, p) == '\r' || At(t, p) == '\n' ==> p < |t|
  {
  }

  lemma DigitStep(t: string, p: nat, s: string)
    ensures s + SizeText(t, p) == if Hex(At(t, p)) >= 0 then s + [At(t, p)] + SizeText(t, p + 1) else s
    ensures Hex(At(t, p)) >= 0 ==> p < |t|
  {
  }

  lemma NoDigits()
    ensures HexValue("") == 0
  {
  }

  lemma OneMore(s: string, c: char)
    requires AllHex(s) && Hex(c) >= 0
    ensures AllHex(s + [c]) && HexValue(s + [c]) == HexValue(s) * 16 + Hex(c)
  {
    assert (s + [c])[..|s|] == s;
  }

  /** The number that stands in a text. */
  lemma {:induction false} SizeIs(t: string, p: nat, lead: string, s: string, x: string)
    requires p <= |t| && t[p..] == lead + s + x && LineEnds(lead) && AllHex(s) && s != "" && (x == "" || Hex(x[0]) < 0)
    ensures LeadEnd(t, p) == p + |lead| && SizeText(t, p + |lead|) == s
    ensures t[p + |lead| + |s|..] == x
    decreases |lead|
  {
    if lead == "" {
      assert s[0] in s && t[p] == s[0];
      assert "" + s + x == s + x;
      DigitsIs(t, p, s, x);
    } else {
      assert lead[0] in lead && t[p] == t[p..][0] == lead[0];
      assert t[p + 1..] == t[p..][1..] == lead[1..] + s + x;
      assert forall c <- lead[1..] :: c in lead;
      SizeIs(t, p + 1, lead[1..], s, x);
    }
  }

  lemma {:induction false} DigitsIs(t: string, p: nat, s: string, x: string)
    requires p <= |t| && t[p..] == s + x && AllHex(s) && (x == "" || Hex(x[0]) < 0)
    ensures SizeText(t, p) == s && p + |s| <= |t| && t[p + |s|..] == x
    decreases |s|
  {
    if s == "" {
      assert t[p..] == x && (p < |t| ==> t[p] == t[p..][0]);
    } else {
      assert s[0] in s && t[p] == t[p..][0] == s[0];
      assert t[p + 1..] == t[p..][1..] == s[1..] + x;
      assert forall c <- s[1..] :: c in s;
      DigitsIs(t, p + 1, s[1..], x);
    }
  }

  // ---- chunks

  /** One chunk: its size as it is written, and its data. */
  datatype Chunk = Chunk(size: string, data: string)
  {
    predicate Valid()
    {
      size != "" && AllHex(size) && HexValue(size) == |data| && data != ""
    }
  }

  /** Data with its length printed in base 16 in front, in either case, is a chunk. */
  lemma PrintedChunk(data: string)
    requires data != ""
    ensures Chunk(Unsigned(|data|, 16), data).Valid() && Chunk(Capitals(Unsigned(|data|, 16)), data).Valid()
  {
    HexOfPrinted(|data|);
    HexOfCapitals(Unsigned(|data|, 16));
  }

  predicate AllValid(cs: seq<Chunk>)
  {
    forall c <- cs :: c.Valid()
  }

  /** The chunked form of section 4.1 of RFC 7230, without extensions: behind the last size come trailers and an empty line,
      or whatever else. */
  function ChunkedBody(cs: seq<Chunk>, last: string, more: string): string
  {
    if cs == [] then last + CRLF + more else cs[0].size + CRLF + cs[0].data + CRLF + ChunkedBody(cs[1..], last, more)
  }

  function Data(cs: seq<Chunk>): string
  {
    if cs == [] then "" else Data(cs[..|cs| - 1]) + cs[|cs| - 1].data
  }

  predicate LastSize(last: string)
  {
    last != "" && AllHex(last) && HexValue(last) == 0
  }

  // ---- what the chunk loop makes of any text

  /** What there is of the n characters at q. */
  function Piece(t: string, q: nat, n: nat): string
  {
    if q >= |t| then "" else if q + n >= |t| then t[q..] else t[q..q + n]
  }

  /** The pieces that the size lines ask for, from p to the first size that is 0 or not there. */
  function Unchunked(t: string, p: nat): string
    decreases |t| - p
  {
    if Size(t, p) == 0 then ""
    else
      HasSize(t, p);
      Piece(t, Next(t, p), Size(t, p)) + Unchunked(t, Next(t, p) + Size(t, p))
  }

  /** How many characters are copied. */
  function Copied(t: string, p: nat): nat
    decreases |t| - p
  {
    if Size(t, p) == 0 then 0
    else
      HasSize(t, p);
      Size(t, p) + Copied(t, Next(t, p) + Size(t, p))
  }

  lemma HasSize(t: string, p: nat)
    ensures Size(t, p) > 0 ==> p < |t|
  {
    NoDigits();
  }

  /** The chunked branch of get_response_body, on any text: the pieces, joined. What is asked for beyond the end of the text
      is zeros, at which the result ends. */
  method Dechunk(t: string, start: nat) returns (body: string)
    requires Copied(t, start) < RESPONSE_BUFF_LEN
    ensures body == Unchunked(t, start)
  {
    hide Size, Next, Unchunked, Copied;
    body := "";
    var p: nat := start;
    var len, length := HexStr2Int(t, p);
    while len != 0
      invariant len == Size(t, p) && p + length == Next(t, p)
      invariant body + Unchunked(t, p) == Unchunked(t, start)
      decreases |t| - p
    {
      UnchunkedStep(t, p, body);
      p := p + length;
      body := body + Piece(t, p, len);
      p := p + len;
      len, length := HexStr2Int(t, p);
    }
    UnchunkedStep(t, p, body);
  }

  lemma UnchunkedStep(t: string, p: nat, body: string)
    ensures Size(t, p) == 0 ==> body + Unchunked(t, p) == body
    ensures Size(t, p) > 0 ==>
              && p < |t|
              && body + Unchunked(t, p)
              == body + Piece(t, Next(t, p), Size(t, p)) + Unchunked(t, Next(t, p) + Size(t, p))
  {
    hide Size, Next;
    HasSize(t, p);
  }

  lemma {:induction false} UnchunkedShorter(t: string, p: nat)
    ensures if p < |t| then |Unchunked(t, p)| < |t| - p else Unchunked(t, p) == ""
    decreases |t| - p
  {
    hide Size, Next;
    HasSize(t, p);
    if Size(t, p) != 0 {
      UnchunkedShorter(t, Next(t, p) + Size(t, p));
    }
  }

  /** Of a chunked body the loop gives the chunks' data, joined. */
  lemma {:induction false} UnchunkedData(t: string, p: nat, lead: string, cs: seq<Chunk>, last: string, more: string)
    requires AllValid(cs) && LastSize(last) && LineEnds(lead) && p <= |t| && t[p..] == lead + ChunkedBody(cs, last, more)
    ensures Unchunked(t, p) == Data(cs) && Copied(t, p) == |Data(cs)|
    decreases |cs|
  {
    hide HexValue, LeadEnd, SizeText, Size, Next, Piece;
    if cs == [] {
      NoMoreChunks(t, p, lead, last, more);
    } else {
      assert cs[0].Valid() && forall c <- cs[1..] :: c in cs;
      ChunkFound(t, p, lead, cs[0], ChunkedBody(cs[1..], last, more));
      hide ChunkedBody;
      UnchunkedData(t, Next(t, p) + |cs[0].data|, CRLF, cs[1..], last, more);
      DataFront(cs);
    }
  }

  lemma NoMoreChunks(t: string, p: nat, lead: string, last: string, more: string)
    requires LastSize(last) && LineEnds(lead) && p <= |t| && t[p..] == lead + (last + CRLF + more)
    ensures Size(t, p) == 0
  {
    hide HexValue, LeadEnd, SizeText;
    assert lead + (last + CRLF + more) == lead + last + (CRLF + more);
    SizeIs(t, p, lead, last, CRLF + more);
  }

  lemma ChunkFound(t: string, p: nat, lead: string, c: Chunk, r: string)
    requires c.Valid() && LineEnds(lead) && p <= |t| && t[p..] == lead + (c.size + CRLF + c.data + CRLF + r)
    ensures Size(t, p) == |c.data| > 0 && Piece(t, Next(t, p), |c.data|) == c.data
    ensures Next(t, p) + |c.data| <= |t| && t[Next(t, p) + |c.data|..] == CRLF + r
  {
    hide HexValue, LeadEnd, SizeText, Piece;
    ChunkLines(lead, c.size, c.data, r);
    SizeIs(t, p, lead, c.size, CRLF + (c.data + (CRLF + r)));
    BehindLine(t, p + |lead| + |c.size|, c.data, CRLF + r);
  }

  lemma BehindLine(t: string, p: nat, d: string, y: string)
    requires p <= |t| && t[p..] == CRLF + (d + y) && y != ""
    ensures p + 2 + |d| <= |t| && Piece(t, p + 2, |d|) == d && t[p + 2 + |d|..] == y
  {
    assert t[p + 2..] == t[p..][2..] == d + y;
    assert t[p + 2..p + 2 + |d|] == t[p + 2..][..|d|];
    assert t[p + 2 + |d|..] == t[p + 2..][|d|..];
  }

  lemma ChunkLines(lead: string, s: string, d: string, r: string)
    ensures lead + (s + CRLF + d + CRLF + r) == lead + s + (CRLF + (d + (CRLF + r)))
  {
  }

  lemma {:induction false} DataFront(cs: seq<Chunk>)
    requires cs != []
    ensures Data(cs) == cs[0].data + Data(cs[1..])
  {
    var n := |cs| - 1;
    if n > 0 {
      DataFront(cs[..n]);
      assert cs[..n][1..] == cs[1..][..n - 1] && cs[1..][n - 1] == cs[n];
      assert Data(cs) == cs[0].data + Data(cs[1..][..n - 1]) + cs[n].data;
    } else {
      assert cs[..0] == [] && cs[1..] == [] && Data([]) == "" && Data(cs) == "" + cs[0].data;
    }
  }

  // ---- the response

  predicate OccursAt(t: string, s: string, i: nat)
  {
    i + |s| <= |t| && t[i..i + |s|] == s
  }

  /** strstr: where `s` first occurs, or -1. */
  method StrStr(t: string, s: string) returns (r: int)
    ensures r == -1 || (r >= 0 && OccursAt(t, s, r))
    ensures forall i: nat :: (r == -1 || i < r) ==> !OccursAt(t, s, i)
  {
    r := 0;
    while r + |s| <= |t|
      invariant r >= 0 && forall i: nat :: i < r ==> !OccursAt(t, s, i)
      decreases |t| - r
    {
      if t[r..r + |s|] == s {
        return;
      }
      r := r + 1;
    }
    r := -1;
  }

  ghost predicate Occurs(t: string, s: string)
  {
    exists i: nat :: OccursAt(t, s, i)
  }

  /** The body is what the response says it carries: the data of its chunks if a line of its header says so, else all that
      stands behind the header. */
  ghost predicate Intended(response: string, header: nat, body: string)
    requires header + 4 <= |response|
  {
    var rest := response[header + 4..];
    if Occurs(response[..header + 2], CHUNKED) then
      forall cs, last, more :: AllValid(cs) && LastSize(last) && rest == ChunkedBody(cs, last, more) ==> body == Data(cs)
    else body == rest
  }

  /** get_response_body: a response is taken to be chunked if the header's text occurs anywhere in it. The body is the
      intended one exactly if the text, where it occurs at all, occurs in the header. */
  method ResponseBody(response: string, ghost header: nat) returns (body: string)
    requires OccursAt(response, BLANK_LINE, header) && forall i: nat :: i < header ==> !OccursAt(response, BLANK_LINE, i)
    requires Occurs(response, CHUNKED) ==> Copied(response, header + 4) < RESPONSE_BUFF_LEN
    ensures body == if Occurs(response, CHUNKED) then Unchunked(response, header + 4) else response[header + 4..]
    ensures Intended(response, header, body) <==> (Occurs(response, CHUNKED) ==> Occurs(response[..header + 2], CHUNKED))
  {
    hide Unchunked, Copied, Intended;
    var pos := StrStr(response, BLANK_LINE);
    assert pos == header;
    var chunked := StrStr(response, CHUNKED);
    if chunked != -1 {
      assert OccursAt(response, CHUNKED, chunked);
      body := Dechunk(response, pos + 4);
    } else {
      body := response[pos + 4..];
    }
    IntendedIff(response, header, body);
  }

  lemma IntendedIff(response: string, header: nat, body: string)
    requires OccursAt(response, BLANK_LINE, header)
    requires body == if Occurs(response, CHUNKED) then Unchunked(response, header + 4) else response[header + 4..]
    ensures Intended(response, header, body) <==> (Occurs(response, CHUNKED) ==> Occurs(response[..header + 2], CHUNKED))
  {
    var p := header + 4;
    if Occurs(response[..header + 2], CHUNKED) {
      var i: nat :| OccursAt(response[..header + 2], CHUNKED, i);
      assert OccursAt(response, CHUNKED, i);
      hide ChunkedBody, Unchunked;
      forall cs, last, more | AllValid(cs) && LastSize(last) && response[p..] == ChunkedBody(cs, last, more)
        ensures body == Data(cs)
      {
        assert "" + ChunkedBody(cs, last, more) == ChunkedBody(cs, last, more);
        UnchunkedData(response, p, "", cs, last, more);
      }
    } else if Occurs(response, CHUNKED) {
      QuoteBehind(response, header);
      UnchunkedShorter(response, p);
    }
  }

  /** A text that does not occur in the header and occurs in the response leaves something behind the header. */
  lemma QuoteBehind(response: string, header: nat)
    requires OccursAt(response, BLANK_LINE, header) && Occurs(response, CHUNKED) && !Occurs(response[..header + 2], CHUNKED)
    ensures header + 4 < |response|
  {
    var i: nat :| OccursAt(response, CHUNKED, i);
    var n := |CHUNKED|;
    OccursPrefix(response, CHUNKED, header + 2, i);
    assert response[header..header + 4][1] == response[header + 1] == '\n';
    assert response[header..header + 4][2] == response[header + 2] == '\r';
    assert response[i + n - 1] == response[i..i + n][n - 1] == '\n';
    assert response[i + n - 3] == response[i..i + n][n - 3] == 'd';
  }

  lemma OccursPrefix(t: string, s: string, k: nat, i: nat)
    requires OccursAt(t, s, i) && k <= |t|
    ensures i + |s| <= k ==> OccursAt(t[..k], s, i)
  {
    if i + |s| <= k {
      assert t[..k][i..i + |s|] == t[i..i + |s|];
    }
  }

  /** Where there is neither a line end nor a digit, there is no number, and nothing is copied. */
  lemma NoSize(t: string, p: nat)
    requires Hex(At(t, p)) < 0 && At(t, p) != '\r' && At(t, p) != '\n'
    ensures Size(t, p) == 0 && Unchunked(t, p) == "" && Copied(t, p) == 0
  {
    NoDigits();
    assert LeadEnd(t, p) == p && SizeText(t, p) == "";
  }

  lemma QuoteFacts(response: string)
    requires response == "HTTP/1.1 200 OK" + BLANK_LINE + ("<p>" + CHUNKED)
    ensures OccursAt(response, BLANK_LINE, 15) && OccursAt(response, CHUNKED, 22) && !Occurs(response[..17], CHUNKED)
    ensures response[19..] == "<p>" + CHUNKED && response[19] == '<'
    ensures forall i: nat :: i < 15 ==> response[i] != '\r'
  {
  }

  lemma NotEarlier(response: string, i: nat)
    requires i < |response| && response[i] != '\r'
    ensures !OccursAt(response, BLANK_LINE, i)
  {
    if i + 4 <= |response| {
      assert response[i..i + 4][0] == response[i];
    }
  }

  /** A plain body that quotes the header's text: none of it is returned. */
  method QuotedHeader() returns (response: string, body: string)
    ensures OccursAt(response, BLANK_LINE, 15) && !Occurs(response[..17], CHUNKED)
    ensures body == "" && response[19..] == "<p>" + CHUNKED
  {
    response := "HTTP/1.1 200 OK" + BLANK_LINE + ("<p>" + CHUNKED);
    QuoteFacts(response);
    hide OccursAt;
    forall i: nat | i < 15
      ensures !OccursAt(response, BLANK_LINE, i)
    {
      NotEarlier(response, i);
    }
    NoSize(response, 19);
    hide Size, Next, Unchunked, Copied, Intended;
    body := ResponseBody(response, 15);
  }

  /** Ten characters in one chunk. */
  method TenCharacters() returns (body: string)
    ensures body == "0123456789"
  {
    var data, t := "0123456789", "a\r\n0123456789\r\n0\r\n\r\n";
    ghost var cs := [Chunk("a", data)];
    TenIsValid(data);
    assert cs[1..] == [] && ChunkedBody([], "0", CRLF) == "0" + CRLF + CRLF;
    assert ChunkedBody(cs, "0", CRLF) == "a" + CRLF + data + CRLF + ("0" + CRLF + CRLF);
    assert t[0..] == "" + ChunkedBody(cs, "0", CRLF);
    UnchunkedData(t, 0, "", cs, "0", CRLF);
    assert cs[..0] == [] && Data(cs) == data;
    body := Dechunk(t, 0);
  }

  lemma TenIsValid(data: string)
    requires |data| == 10
    ensures Chunk("a", data).Valid() && LastSize("0")
  {
    hide HexValue;
    assert Hex('a') == 10 && Hex('0') == 0;
    NoDigits();
    OneMore("", 'a');
    OneMore("", '0');
    assert "" + ['a'] == "a" && "" + ['0'] == "0";
  }
}
