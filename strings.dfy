/** The `java.lang.String` operations the activity relies on, over strings as
    sequences of code points. */
module Strings {

  /** `String.trim()` treats every character at or below U+0020 as blank. */
  predicate IsBlank(c: char) {
    c <= ' '
  }

  predicate BlankBetween(s: string, lo: int, hi: int)
    requires 0 <= lo && hi <= |s|
  {
    forall i :: lo <= i < hi ==> IsBlank(s[i])
  }

  predicate AllBlank(s: string) {
    BlankBetween(s, 0, |s|)
  }

  /** No blank at either end. */
  predicate IsTrimmed(s: string) {
    s == [] || (!IsBlank(s[0]) && !IsBlank(s[|s| - 1]))
  }

  /** `r` is `s` with the blanks removed from both of its ends. */
  ghost predicate TrimOf(s: string, r: string) {
    exists a, b :: 0 <= a <= b <= |s| && r == s[a..b] && BlankBetween(s, 0, a) && BlankBetween(s, b, |s|) && IsTrimmed(r)
  }

  /** The index of the first non-blank character at or after `i`, or `|s|`. */
  function SkipBlanks(s: string, i: nat): (k: nat)
    requires i <= |s|
    ensures i <= k <= |s|
    ensures BlankBetween(s, i, k)
    ensures k < |s| ==> !IsBlank(s[k])
    decreases |s| - i
  {
    if i < |s| && IsBlank(s[i]) then SkipBlanks(s, i + 1) else i
  }

  /** The end of `s[lo..hi]` once its trailing blanks are dropped. */
  function DropTrailingBlanks(s: string, lo: nat, hi: nat): (e: nat)
    requires lo <= hi <= |s|
    ensures lo <= e <= hi
    ensures BlankBetween(s, e, hi)
    ensures e > lo ==> !IsBlank(s[e - 1])
    decreases hi
  {
    if hi > lo && IsBlank(s[hi - 1]) then DropTrailingBlanks(s, lo, hi - 1) else hi
  }

  /** `String.trim()`. */
  function Trim(s: string): (r: string)
    ensures TrimOf(s, r)
    ensures IsTrimmed(r)
    ensures r == [] <==> AllBlank(s)
  {
    var a := SkipBlanks(s, 0);
    var b := DropTrailingBlanks(s, a, |s|);
    assert a < b ==> s[a..b][0] == s[a] && s[a..b][b - a - 1] == s[b - 1];
    s[a..b]
  }

  /** Any way of cutting blanks off both ends of `s` leaves what `trim()` keeps. */
  lemma TrimOfIsTrim(s: string, r: string, a: nat, b: nat)
    requires a <= b <= |s| && r == s[a..b] && BlankBetween(s, 0, a) && BlankBetween(s, b, |s|) && IsTrimmed(r)
    ensures r == Trim(s)
  {
    var a0 := SkipBlanks(s, 0);
    var b0 := DropTrailingBlanks(s, a0, |s|);
    if r != [] {
      assert r[0] == s[a] && r[|r| - 1] == s[b - 1];
      assert !IsBlank(s[a]) && !IsBlank(s[b - 1]);
      assert a0 == a;
      assert b0 == b;
    }
  }

  /** The blanks removed at the two ends determine what `trim()` keeps. */
  lemma TrimOfUnique(s: string, r1: string, r2: string)
    requires TrimOf(s, r1) && TrimOf(s, r2)
    ensures r1 == r2
  {
    var a1, b1 :| 0 <= a1 <= b1 <= |s| && r1 == s[a1..b1] && BlankBetween(s, 0, a1) && BlankBetween(s, b1, |s|) && IsTrimmed(r1);
    var a2, b2 :| 0 <= a2 <= b2 <= |s| && r2 == s[a2..b2] && BlankBetween(s, 0, a2) && BlankBetween(s, b2, |s|) && IsTrimmed(r2);
    TrimOfIsTrim(s, r1, a1, b1);
    TrimOfIsTrim(s, r2, a2, b2);
  }

  /** A string with no blank at either end is left alone by `trim()`. */
  lemma TrimmedIsFixed(s: string)
    requires IsTrimmed(s)
    ensures Trim(s) == s
  {
    assert s[0..|s|] == s;
    assert TrimOf(s, s);
    TrimOfUnique(s, Trim(s), s);
  }

  lemma TrimIdempotent(s: string)
    ensures Trim(Trim(s)) == Trim(s)
  {
    TrimmedIsFixed(Trim(s));
  }

  /** `indexOf(c, i)`: the first index at or after `i` holding `c`, or -1. */
  function IndexOfFrom(s: string, c: char, i: nat): (k: int)
    requires i <= |s|
    ensures k == -1 || i <= k < |s|
    ensures k >= 0 ==> s[k] == c
    ensures forall j :: i <= j < (if k < 0 then |s| else k) ==> s[j] != c
    decreases |s| - i
  {
    if i == |s| then -1 else if s[i] == c then i else IndexOfFrom(s, c, i + 1)
  }

  /** `indexOf(c)`. */
  function IndexOf(s: string, c: char): (k: int)
    ensures k == -1 || 0 <= k < |s|
    ensures k >= 0 ==> s[k] == c
    ensures forall j :: 0 <= j < (if k < 0 then |s| else k) ==> s[j] != c
  {
    IndexOfFrom(s, c, 0)
  }

  /** `lastIndexOf(c, e - 1)`: the last index below `e` holding `c`, or -1. */
  function LastIndexOfBefore(s: string, c: char, e: nat): (k: int)
    requires e <= |s|
    ensures -1 <= k < e
    ensures k >= 0 ==> s[k] == c
    ensures forall j :: k < j < e ==> s[j] != c
    decreases e
  {
    if e == 0 then -1 else if s[e - 1] == c then e - 1 else LastIndexOfBefore(s, c, e - 1)
  }

  /** `lastIndexOf(c)`. */
  function LastIndexOf(s: string, c: char): (k: int)
    ensures -1 <= k < |s|
    ensures k >= 0 ==> s[k] == c
    ensures forall j :: k < j < |s| ==> s[j] != c
  {
    LastIndexOfBefore(s, c, |s|)
  }
}
