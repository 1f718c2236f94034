/** Text in character buffers, ended by a NUL. */
module CString {
  import opened Sequences

  /** A buffer holds a text up to its first NUL. */
  predicate Terminated(b: seq<char>)
  {
    First(b, '\0') < |b|
  }

  function CText(b: seq<char>): string
    requires Terminated(b)
  {
    b[..First(b, '\0')]
  }

  lemma CTextIs(b: seq<char>, s: string)
    requires |s| < |b| && b[..|s|] == s && b[|s|] == '\0' && '\0' !in s
    ensures Terminated(b) && CText(b) == s
  {
    assert forall i :: 0 <= i < |s| ==> b[i] == s[i] && s[i] in s;
    FirstIs(b, '\0', |s|);
  }

  /** strcpy and strcat: s is written from `at` on. */
  method Put(buf: array<char>, at: nat, s: string)
    requires at + |s| < buf.Length && '\0' !in s && '\0' !in buf[..at]
    modifies buf
    ensures Terminated(buf[..]) && CText(buf[..]) == old(buf[..at]) + s
  {
    forall i | 0 <= i < |s| {
      buf[at + i] := s[i];
    }
    buf[at + |s|] := '\0';
    assert buf[..at + |s|] == old(buf[..at]) + s;
    CTextIs(buf[..], old(buf[..at]) + s);
  }

  method Strlen(buf: array<char>) returns (n: nat)
    requires Terminated(buf[..])
    ensures n == |CText(buf[..])| < buf.Length && '\0' !in buf[..n]
  {
    n := 0;
    while buf[n] != '\0'
      invariant n <= First(buf[..], '\0') && '\0' !in buf[..n]
      decreases buf.Length - n
    {
      n := n + 1;
    }
    FirstIs(buf[..], '\0', n);
  }

  /** The character at p, or the terminating NUL. */
  function At(t: string, p: nat): char
  {
    if p < |t| then t[p] else '\0'
  }
}
