/**
 The three JavaScript string operations the scanner relies on: `trim`,
 `toLowerCase` and `includes`, over strings of Unicode code points.
 */
module Text {

  /** The characters ECMAScript counts as white space or line terminators,
      which `String.prototype.trim` strips from both ends. */
  predicate IsSpace(c: char) {
    || c == '\t' || c == '\n' || c == '\U{000B}' || c == '\U{000C}' || c == '\r'
    || c == ' ' || c == '\U{00A0}' || c == '\U{1680}'
    || ('\U{2000}' <= c <= '\U{200A}')
    || c == '\U{2028}' || c == '\U{2029}' || c == '\U{202F}' || c == '\U{205F}'
    || c == '\U{3000}' || c == '\U{FEFF}'
  }

  ghost predicate AllSpace(s: string) {
    forall i :: 0 <= i < |s| ==> IsSpace(s[i])
  }

  /** A string that `trim` leaves alone: empty, or with non-space ends. */
  ghost predicate IsTrimmed(s: string) {
    s == [] || (!IsSpace(s[0]) && !IsSpace(s[|s| - 1]))
  }

  /** `s` is `r` with white space around it: `r` starts at index `lo` of `s`. */
  ghost predicate PaddedAt(s: string, r: string, lo: int) {
    && 0 <= lo && lo + |r| <= |s|
    && s[lo..lo + |r|] == r
    && forall i :: 0 <= i < |s| && (i < lo || lo + |r| <= i) ==> IsSpace(s[i])
  }

  /** Length of the white-space prefix of `s`. */
  function LeadingSpace(s: string): (n: nat)
    ensures n <= |s|
    ensures forall i :: 0 <= i < n ==> IsSpace(s[i])
    ensures n < |s| ==> !IsSpace(s[n])
  {
    if s == [] || !IsSpace(s[0]) then 0 else 1 + LeadingSpace(s[1..])
  }

  /** Length of the white-space suffix of `s` that lies after index `lo`. */
  function TrailingSpace(s: string, lo: nat): (n: nat)
    requires lo <= |s|
    ensures n <= |s| - lo
    ensures forall i :: |s| - n <= i < |s| ==> IsSpace(s[i])
    ensures n < |s| - lo ==> !IsSpace(s[|s| - 1 - n])
    decreases |s|
  {
    if |s| == lo || !IsSpace(s[|s| - 1]) then 0 else 1 + TrailingSpace(s[..|s| - 1], lo)
  }

  /** `String.prototype.trim`: drops white space at both ends. */
  function Trim(s: string): (r: string)
    ensures IsTrimmed(r)
    ensures exists lo :: PaddedAt(s, r, lo)
    ensures r == [] <==> AllSpace(s)
  {
    var lo := LeadingSpace(s);
    var hi := |s| - TrailingSpace(s, lo);
    TrimSplits(s, lo, hi);
    s[lo..hi]
  }

  lemma TrimSplits(s: string, lo: nat, hi: int)
    requires lo == LeadingSpace(s) && hi == |s| - TrailingSpace(s, lo)
    ensures lo <= hi <= |s|
    ensures PaddedAt(s, s[lo..hi], lo) && IsTrimmed(s[lo..hi])
    ensures s[lo..hi] == [] <==> AllSpace(s)
  {
    var r := s[lo..hi];
    assert PaddedAt(s, r, lo);
    if lo < hi {
      assert r[0] == s[lo] && r[|r| - 1] == s[hi - 1];
    }
  }

  /** A string has at most one non-empty trimmed core. */
  lemma PaddingUnique(s: string, t: string, lo: int, r: string, x: int)
    requires PaddedAt(s, t, lo) && IsTrimmed(t) && t != []
    requires PaddedAt(s, r, x) && IsTrimmed(r) && r != []
    ensures t == r
  {
    assert s[lo] == t[0] && s[x] == r[0];
    assert s[lo + |t| - 1] == t[|t| - 1] && s[x + |r| - 1] == r[|r| - 1];
    assert lo == x;
    assert lo + |t| == x + |r|;
  }

  /** Trimming is exactly the removal of the white space around a trimmed
      string: the result does not depend on how the padding is split. */
  lemma TrimPadded(a: string, r: string, b: string)
    requires AllSpace(a) && AllSpace(b) && IsTrimmed(r)
    ensures Trim(a + r + b) == r
  {
    var s := a + r + b;
    assert forall i :: 0 <= i < |a| ==> s[i] == a[i];
    assert forall i :: |a| + |r| <= i < |s| ==> s[i] == b[i - |a| - |r|];
    assert s[|a|..|a| + |r|] == r;
    assert PaddedAt(s, r, |a|);
    if r != [] {
      var t := Trim(s);
      var lo :| PaddedAt(s, t, lo);
      assert t != [] by { assert s[|a|] == r[0]; }
      PaddingUnique(s, t, lo, r, |a|);
    }
  }

  /** Trimming twice is trimming once. */
  lemma TrimIdempotent(s: string)
    ensures Trim(Trim(s)) == Trim(s)
  {
    var r := Trim(s);
    assert [] + r + [] == r;
    TrimPadded([], r, []);
  }

  /** `Char.toLowerCase` for the characters that lower-case to ASCII letters:
      `A`..`Z`, and the Kelvin sign, which lower-cases to `k`. */
  function LowerChar(c: char): (d: char)
    ensures !('A' <= d <= 'Z')
    ensures d != c ==> 'A' <= c <= 'Z' || c == '\U{212A}'
    ensures 'a' <= c <= 'z' ==> d == c
    ensures 'A' <= c <= 'Z' ==> 'a' <= d <= 'z' && d as int - 'a' as int == c as int - 'A' as int
  {
    if 'A' <= c <= 'Z' then (c as int + 32) as char
    else if c == '\U{212A}' then 'k'
    else c
  }

  /** `String.prototype.toLowerCase`, character by character. */
  function Lower(s: string): (r: string)
    ensures |r| == |s|
    ensures forall i :: 0 <= i < |s| ==> r[i] == LowerChar(s[i])
  {
    seq(|s|, i requires 0 <= i < |s| => LowerChar(s[i]))
  }

  /** Lower-casing twice is lower-casing once. */
  lemma LowerIdempotent(s: string)
    ensures Lower(Lower(s)) == Lower(s)
  {
  }

  /** Lower-casing distributes over concatenation. */
  lemma LowerAppend(a: string, b: string)
    ensures Lower(a + b) == Lower(a) + Lower(b)
  {
  }

  /** `k` occurs in `s` starting at index `i`. */
  ghost predicate OccursAt(s: string, k: string, i: int) {
    0 <= i && i + |k| <= |s| && s[i..i + |k|] == k
  }

  lemma OccursShift(s: string, k: string)
    requires s != []
    ensures (exists i :: OccursAt(s, k, i)) <==> OccursAt(s, k, 0) || exists i :: OccursAt(s[1..], k, i)
  {
    forall i | OccursAt(s[1..], k, i) ensures OccursAt(s, k, i + 1) {
      assert s[i + 1..i + 1 + |k|] == s[1..][i..i + |k|];
    }
    forall i | 0 < i && OccursAt(s, k, i) ensures OccursAt(s[1..], k, i - 1) {
      assert s[1..][i - 1..i - 1 + |k|] == s[i..i + |k|];
    }
  }

  /** Every character of an occurrence is a character of the string. */
  lemma OccurrenceChar(s: string, k: string, i: int, m: int)
    requires OccursAt(s, k, i) && 0 <= m < |k|
    ensures k[m] in s
  {
    assert s[i + m] == s[i..i + |k|][m];
  }

  /** `String.prototype.includes`: does `k` occur anywhere in `s`? */
  function Includes(s: string, k: string): (b: bool)
    ensures b <==> exists i :: OccursAt(s, k, i)
    decreases |s|
  {
    if |s| < |k| then false
    else if s[..|k|] == k then assert OccursAt(s, k, 0); true
    else OccursShift(s, k); Includes(s[1..], k)
  }
}
