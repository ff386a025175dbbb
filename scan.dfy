/**
 The values the scanner works with and the pure steps of one scan:
 classification, the confidence score, the bounded history and the
 lifetime counters, deleting history entries by date, and the theme switch.
 */
module Scan {
  import opened Text

  datatype Option<T> = None | Some(value: T)

  /** The three verdicts the result type allows; the classifier never
      produces `Malicious`. */
  datatype Verdict = Safe | Suspicious | Malicious

  /** One completed scan. `date` is the ISO-8601 timestamp of the scan and
      also serves as the entry's key in the history. */
  datatype ScanResult = ScanResult(date: string, url: string, result: Verdict, confidence: int)

  /** Lifetime counters; deleting history entries does not touch them. */
  datatype Stats = Stats(total: nat, threats: nat, safe: nat)

  datatype Theme = Light | Dark

  /** The history keeps at most this many entries, newest first. */
  const MaxHistory := 50

  const Keywords: seq<string> := ["phishing", "scam", "fake", "malware", "virus"]

  function Min(a: int, b: int): (m: int)
    ensures m <= a && m <= b && (m == a || m == b)
  {
    if a <= b then a else b
  }

  // ---------------------------------------------------------------------
  // Classification

  /** `ks.some(k => s.includes(k))`. */
  function AnyIncluded(s: string, ks: seq<string>): (b: bool)
    ensures b <==> exists j, i :: 0 <= j < |ks| && OccursAt(s, ks[j], i)
  {
    if ks == [] then false
    else
      var b := Includes(s, ks[0]) || AnyIncluded(s, ks[1..]);
      assert forall j, i :: 0 < j < |ks| && OccursAt(s, ks[j], i) ==> OccursAt(s, ks[1..][j - 1], i);
      b
  }

  /** The verdict: `Suspicious` exactly when the lower-cased URL contains one
      of the five keywords, `Safe` otherwise. */
  function Classify(url: string): (v: Verdict)
    ensures v != Malicious
    ensures v == Suspicious <==> exists j, i :: 0 <= j < |Keywords| && OccursAt(Lower(url), Keywords[j], i)
  {
    if AnyIncluded(Lower(url), Keywords) then Suspicious else Safe
  }

  /** `Math.floor(draw * 30) + 70` for a draw in [0, 1). */
  function Confidence(draw: real): (c: int)
    requires 0.0 <= draw < 1.0
    ensures 70 <= c <= 99
  {
    (draw * 30.0).Floor + 70
  }

  /** Every score in 70..99 is the score of some draw. */
  lemma ConfidenceOnto(c: int)
    requires 70 <= c <= 99
    ensures var draw := (c - 70) as real / 30.0; 0.0 <= draw < 1.0 && Confidence(draw) == c
  {
    var k := c - 70;
    var draw := k as real / 30.0;
    assert draw * 30.0 == k as real;
  }

  /** The result record built after the simulated delay. */
  function MakeResult(url: string, now: string, draw: real): (r: ScanResult)
    requires 0.0 <= draw < 1.0
    ensures r.url == url && r.date == now
    ensures r.result == Classify(url)
    ensures WellFormed(r)
  {
    ScanResult(now, url, Classify(url), Confidence(draw))
  }

  /** What every result the scanner produces satisfies. */
  predicate WellFormed(r: ScanResult) {
    r.result != Malicious && 70 <= r.confidence <= 99
  }

  /** A history the scanner could have built: bounded, and every entry a
      result the classifier can produce. */
  predicate WellFormedHistory(h: seq<ScanResult>) {
    |h| <= MaxHistory && forall i :: 0 <= i < |h| ==> WellFormed(h[i])
  }

  /** A URL that contains a keyword, as written in lower case, is flagged. */
  lemma KeywordFlagged(a: string, j: int, b: string)
    requires 0 <= j < |Keywords|
    ensures Classify(a + Keywords[j] + b) == Suspicious
  {
    var k := Keywords[j];
    LowerAppend(a + k, b);
    LowerAppend(a, k);
    assert Lower(k) == k by {
      forall i | 0 <= i < |k| ensures 'a' <= k[i] <= 'z' {
        if j == 0 {} else if j == 1 {} else if j == 2 {} else if j == 3 {} else {}
      }
    }
    var s := Lower(a + k + b);
    assert s[|a|..|a| + |k|] == k;
    assert OccursAt(s, Keywords[j], |a|);
  }

  lemma ExampleFlagged()
    ensures Classify("http://example.com/phishing") == Suspicious
  {
    assert "http://example.com/" + Keywords[0] + "" == "http://example.com/phishing";
    KeywordFlagged("http://example.com/", 0, "");
  }

  /** A URL without any keyword is safe: "http://example.com" has no `s`
      (which rules out "phishing", "scam" and "virus"), no `f` and no `w`. */
  lemma ExampleSafe()
    ensures Classify("http://example.com") == Safe
  {
    var u := "http://example.com";
    assert Lower(u) == u;
    assert 's' !in u && 'f' !in u && 'w' !in u;
    forall j, i | 0 <= j < |Keywords| ensures !OccursAt(u, Keywords[j], i) {
      if OccursAt(u, Keywords[j], i) {
        if j == 0 { OccurrenceChar(u, Keywords[j], i, 3); }
        else if j == 1 { OccurrenceChar(u, Keywords[j], i, 0); }
        else if j == 2 { OccurrenceChar(u, Keywords[j], i, 0); }
        else if j == 3 { OccurrenceChar(u, Keywords[j], i, 3); }
        else { OccurrenceChar(u, Keywords[j], i, 4); }
      }
    }
  }

  /** The verdict ignores letter case. */
  lemma ClassifyIgnoresCase(u: string, w: string)
    requires Lower(u) == Lower(w)
    ensures Classify(u) == Classify(w)
  {
  }

  /** A URL that contains a keyword in any letter case is flagged. */
  lemma UpperKeywordFlagged(a: string, k: string, b: string, j: int)
    requires 0 <= j < |Keywords| && Lower(k) == Keywords[j]
    ensures Classify(a + k + b) == Suspicious
  {
    var w := Keywords[j];
    KeywordFlagged(a, j, b);
    LowerAppend(a + k, b);
    LowerAppend(a, k);
    LowerAppend(a + w, b);
    LowerAppend(a, w);
    LowerIdempotent(k);
    ClassifyIgnoresCase(a + k + b, a + w + b);
  }

  lemma ExampleFlaggedUpper()
    ensures Classify("HTTP://EXAMPLE.COM/PHISHING") == Suspicious
  {
    var k := "PHISHING";
    assert Lower(k) == Keywords[0];
    assert "HTTP://EXAMPLE.COM/" + k + "" == "HTTP://EXAMPLE.COM/PHISHING";
    UpperKeywordFlagged("HTTP://EXAMPLE.COM/", k, "", 0);
  }

  // ---------------------------------------------------------------------
  // History

  /** `[x, ...h].slice(0, 50)`. */
  function PushHistory(h: seq<ScanResult>, x: ScanResult): (r: seq<ScanResult>)
    ensures |r| == Min(|h| + 1, MaxHistory)
    ensures r[0] == x
    ensures forall i :: 0 <= i < |r| - 1 ==> r[i + 1] == h[i]
  {
    ([x] + h)[..Min(|h| + 1, MaxHistory)]
  }

  /** The `MaxHistory` newest entries of a newest-first list. */
  function Newest(s: seq<ScanResult>): (r: seq<ScanResult>)
    ensures |r| == Min(|s|, MaxHistory) && |r| <= MaxHistory
    ensures forall i :: 0 <= i < |r| ==> r[i] == s[i]
  {
    s[..Min(|s|, MaxHistory)]
  }

  /** The entries of `s` in the opposite order. */
  function Reverse(s: seq<ScanResult>): (r: seq<ScanResult>)
    ensures |r| == |s|
    ensures forall i :: 0 <= i < |s| ==> r[i] == s[|s| - 1 - i]
  {
    if s == [] then [] else Reverse(s[1..]) + [s[0]]
  }

  /** The history after the scans `xs`, performed in order. */
  function PushAll(h: seq<ScanResult>, xs: seq<ScanResult>): (r: seq<ScanResult>)
    decreases |xs|
  {
    if xs == [] then h else PushAll(PushHistory(h, xs[0]), xs[1..])
  }

  lemma NewestAbsorbs(a: seq<ScanResult>, b: seq<ScanResult>)
    ensures Newest(a + Newest(b)) == Newest(a + b)
  {
    var n := Min(|a + b|, MaxHistory);
    assert Newest(a + b) == (a + b)[..n];
    assert (a + Newest(b))[..n] == (a + b)[..n];
  }

  /** After any sequence of scans the history holds the 50 most recent
      results, newest first, followed by what remains of the old history. */
  lemma {:induction false} PushAllNewest(h: seq<ScanResult>, xs: seq<ScanResult>)
    requires |h| <= MaxHistory || xs != []
    ensures PushAll(h, xs) == Newest(Reverse(xs) + h)
    decreases |xs|
  {
    if xs == [] {
      assert Reverse(xs) + h == h;
    } else {
      var h' := PushHistory(h, xs[0]);
      PushAllNewest(h', xs[1..]);
      PushIsNewest(h, xs[0]);
      NewestAbsorbs(Reverse(xs[1..]), [xs[0]] + h);
      ReverseFirst(xs, h);
    }
  }

  /** One push is the newest 50 of the result followed by the history. */
  lemma PushIsNewest(h: seq<ScanResult>, x: ScanResult)
    ensures PushHistory(h, x) == Newest([x] + h)
  {
  }

  /** Reversing `xs` puts its first entry last. */
  lemma ReverseFirst(xs: seq<ScanResult>, h: seq<ScanResult>)
    requires xs != []
    ensures Reverse(xs[1..]) + ([xs[0]] + h) == Reverse(xs) + h
  {
    assert Reverse(xs) == Reverse(xs[1..]) + [xs[0]];
  }

  /** Rescanning an entry keeps the entry, one place further down, unless it
      was the last of a full history. */
  lemma RescanKeepsEntry(h: seq<ScanResult>, i: int, now: string, draw: real)
    requires 0 <= i < |h| && i + 1 < MaxHistory
    requires 0.0 <= draw < 1.0
    ensures var h' := PushHistory(h, MakeResult(h[i].url, now, draw));
      h'[0].url == h[i].url && i + 1 < |h'| && h'[i + 1] == h[i]
  {
  }

  // ---------------------------------------------------------------------
  // Counters

  /** `total == threats + safe`, as the zero counters start out. */
  predicate Consistent(s: Stats) {
    s.total == s.threats + s.safe
  }

  /** One scan's update of the counters: `total` and exactly one of
      `threats` and `safe` go up by one. */
  function BumpStats(s: Stats, v: Verdict): (r: Stats)
    ensures r.total == s.total + 1
    ensures r.safe == s.safe + 1 && r.threats == s.threats <==> v == Safe
    ensures r.threats == s.threats + 1 && r.safe == s.safe <==> v != Safe
  {
    Stats(s.total + 1, s.threats + (if v != Safe then 1 else 0), s.safe + (if v == Safe then 1 else 0))
  }

  lemma BumpKeepsConsistent(s: Stats, v: Verdict)
    requires Consistent(s)
    ensures Consistent(BumpStats(s, v))
  {
  }

  /** The counters after the scans with verdicts `vs`, performed in order. */
  function BumpAll(s: Stats, vs: seq<Verdict>): (r: Stats)
    decreases |vs|
  {
    if vs == [] then s else BumpAll(BumpStats(s, vs[0]), vs[1..])
  }

  /** The number of verdicts in `vs` that are not `Safe`. */
  function CountThreats(vs: seq<Verdict>): (n: nat)
    ensures n <= |vs|
  {
    if vs == [] then 0 else (if vs[0] != Safe then 1 else 0) + CountThreats(vs[1..])
  }

  /** After any sequence of scans, `total` has grown by the number of scans,
      `threats` by the number of non-safe verdicts, and the sum invariant
      still holds. */
  lemma {:induction false} BumpAllCounts(s: Stats, vs: seq<Verdict>)
    requires Consistent(s)
    ensures Consistent(BumpAll(s, vs))
    ensures BumpAll(s, vs).total == s.total + |vs|
    ensures BumpAll(s, vs).threats == s.threats + CountThreats(vs)
    decreases |vs|
  {
    if vs != [] {
      BumpAllCounts(BumpStats(s, vs[0]), vs[1..]);
    }
  }

  // ---------------------------------------------------------------------
  // Deletion

  /** `a` is `b` with some entries left out, the rest in their order. */
  ghost predicate IsSubsequence(a: seq<ScanResult>, b: seq<ScanResult>)
    decreases |b|
  {
    || a == []
    || (b != [] && ((a[0] == b[0] && IsSubsequence(a[1..], b[1..])) || IsSubsequence(a, b[1..])))
  }

  /** `h.filter(scan => scan.date !== date)`: every entry with that date
      goes, every other entry stays, in its order. */
  function DeleteByDate(h: seq<ScanResult>, date: string): (r: seq<ScanResult>)
    ensures forall i :: 0 <= i < |r| ==> r[i].date != date
    ensures forall e: ScanResult :: e.date != date ==> multiset(r)[e] == multiset(h)[e]
    ensures IsSubsequence(r, h)
  {
    if h == [] then []
    else
      assert h == [h[0]] + h[1..];
      var rest := DeleteByDate(h[1..], date);
      if h[0].date == date then rest
      else
        var r := [h[0]] + rest;
        assert r[1..] == rest;
        r
  }

  lemma {:induction false} SubsequenceWithin(a: seq<ScanResult>, b: seq<ScanResult>)
    requires IsSubsequence(a, b)
    ensures |a| <= |b|
    ensures forall x :: x in a ==> x in b
    decreases |b|
  {
    if a != [] {
      if a[0] == b[0] && IsSubsequence(a[1..], b[1..]) {
        SubsequenceWithin(a[1..], b[1..]);
        assert a == [a[0]] + a[1..] && b == [b[0]] + b[1..];
      } else {
        SubsequenceWithin(a, b[1..]);
        assert b == [b[0]] + b[1..];
      }
    }
  }

  /** Deleting entries keeps a well-formed history well-formed. */
  lemma DeleteKeepsWellFormed(h: seq<ScanResult>, date: string)
    requires WellFormedHistory(h)
    ensures WellFormedHistory(DeleteByDate(h, date))
  {
    var r := DeleteByDate(h, date);
    SubsequenceWithin(r, h);
    forall i | 0 <= i < |r| ensures WellFormed(r[i]) {
      assert r[i] in h;
    }
  }

  /** Deleting a date that no entry carries changes nothing. */
  lemma {:induction false} DeleteAbsent(h: seq<ScanResult>, date: string)
    requires forall i :: 0 <= i < |h| ==> h[i].date != date
    ensures DeleteByDate(h, date) == h
  {
    if h != [] {
      DeleteAbsent(h[1..], date);
    }
  }

  /** Deleting the same date twice is deleting it once. */
  lemma DeleteIdempotent(h: seq<ScanResult>, date: string)
    ensures DeleteByDate(DeleteByDate(h, date), date) == DeleteByDate(h, date)
  {
    DeleteAbsent(DeleteByDate(h, date), date);
  }

  // ---------------------------------------------------------------------
  // Theme

  function Flip(t: Theme): (r: Theme)
    ensures r != t
  {
    if t == Light then Dark else Light
  }

  lemma FlipTwice(t: Theme)
    ensures Flip(Flip(t)) == t
  {
  }
}
