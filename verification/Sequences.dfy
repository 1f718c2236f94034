/** What several components need to say about sequences: filtering, and first occurrences. */
module Sequences {

  /** What is left of a sequence when the elements that `drop` names are taken out. */
  function Kept<T>(s: seq<T>, drop: T -> bool): seq<T>
  {
    if s == [] then [] else (if drop(s[0]) then [] else [s[0]]) + Kept(s[1..], drop)
  }

  lemma {:induction false} KeptMore<T>(s: seq<T>, drop: T -> bool, e: T)
    ensures Kept(s + [e], drop) == if drop(e) then Kept(s, drop) else Kept(s, drop) + [e]
  {
    if s == [] {
      assert (s + [e])[1..] == [];
    } else {
      assert (s + [e])[1..] == s[1..] + [e];
      KeptMore(s[1..], drop, e);
    }
  }

  lemma KeptEmpty<T>(drop: T -> bool)
    ensures Kept([], drop) == []
  {
  }

  lemma {:induction false} KeptNone<T>(s: seq<T>, drop: T -> bool)
    ensures forall e <- Kept(s, drop) :: e in s && !drop(e)
  {
    if s != [] {
      KeptNone(s[1..], drop);
    }
  }

  lemma {:induction false} AllDropped<D>(s: seq<D>, drop: D -> bool)
    requires forall d <- s :: drop(d)
    ensures Kept(s, drop) == []
  {
    if s != [] {
      AllDropped(s[1..], drop);
    }
  }

  lemma {:induction false} KeptMember<T>(s: seq<T>, drop: T -> bool, e: T)
    ensures e in Kept(s, drop) <==> e in s && !drop(e)
  {
    if s != [] {
      KeptMember(s[1..], drop, e);
    }
  }

  lemma {:induction false} KeptSame<T>(s: seq<T>, p: T -> bool, q: T -> bool)
    requires forall e <- s :: p(e) <==> q(e)
    ensures Kept(s, p) == Kept(s, q)
  {
    if s != [] {
      KeptSame(s[1..], p, q);
    }
  }

  lemma {:induction false} KeptTwice<T>(s: seq<T>, p: T -> bool, q: T -> bool, both: T -> bool)
    requires forall e <- s :: both(e) <==> p(e) || q(e)
    ensures Kept(Kept(s, p), q) == Kept(s, both)
  {
    if s != [] {
      KeptTwice(s[1..], p, q, both);
      var rest := Kept(s[1..], p);
      if p(s[0]) {
        assert Kept(s, p) == rest;
      } else {
        assert Kept(s, p) == [s[0]] + rest && ([s[0]] + rest)[1..] == rest;
      }
    }
  }

  lemma {:induction false} KeptAll<T>(s: seq<T>, drop: T -> bool)
    requires forall e <- s :: !drop(e)
    ensures Kept(s, drop) == s
  {
    if s != [] {
      KeptAll(s[1..], drop);
    }
  }

  lemma Regroup<T>(a: seq<T>, b: seq<T>, c: seq<T>, d: seq<T>)
    ensures a + b + c + d == a + (b + c + d) == a + (b + (c + d)) == a + (b + c) + d == a + b + (c + d)
  {
  }

  /** Where `e` first occurs, or the length. */
  function First<T(==)>(s: seq<T>, e: T): (k: nat)
    ensures k <= |s| && (k < |s| ==> s[k] == e) && forall i :: 0 <= i < k ==> s[i] != e
  {
    if s == [] || s[0] == e then 0 else 1 + First(s[1..], e)
  }

  lemma FirstIs<T>(s: seq<T>, e: T, k: nat)
    requires k < |s| && s[k] == e && forall i :: 0 <= i < k ==> s[i] != e
    ensures First(s, e) == k
  {
  }
}
