/** `re.findall(r"\d*\.*\d+", s)` and the `float()` reading of its tokens, as
    `filter_prices` uses them to pull the amount out of a price description.
    `\d` is taken to be an ASCII digit. */
module Tokens {
  import opened Wrappers
  import opened Decimal

  // ---------------------------------------------------------------------------
  // Runs

  /** The number of digits in a row starting at `i`. */
  function DigitRun(s: string, i: nat): (r: nat)
    requires i <= |s|
    ensures i + r <= |s|
    decreases |s| - i
  {
    if i < |s| && IsDigit(s[i]) then 1 + DigitRun(s, i + 1) else 0
  }

  /** The digit run is all digits and cannot be extended. */
  lemma {:induction false} DigitRunSpan(s: string, i: nat)
    requires i <= |s|
    ensures forall k :: i <= k < i + DigitRun(s, i) ==> IsDigit(s[k])
    ensures i + DigitRun(s, i) < |s| ==> !IsDigit(s[i + DigitRun(s, i)])
    decreases |s| - i
  {
    if i < |s| && IsDigit(s[i]) {
      DigitRunSpan(s, i + 1);
    }
  }

  /** The number of dots in a row starting at `i`. */
  function DotRun(s: string, i: nat): (r: nat)
    requires i <= |s|
    ensures i + r <= |s|
    decreases |s| - i
  {
    if i < |s| && s[i] == '.' then 1 + DotRun(s, i + 1) else 0
  }

  /** The dot run is all dots and cannot be extended. */
  lemma {:induction false} DotRunSpan(s: string, i: nat)
    requires i <= |s|
    ensures forall k :: i <= k < i + DotRun(s, i) ==> s[k] == '.'
    ensures i + DotRun(s, i) < |s| ==> s[i + DotRun(s, i)] != '.'
    decreases |s| - i
  {
    if i < |s| && s[i] == '.' {
      DotRunSpan(s, i + 1);
    }
  }

  /** The length of the match at `i`, 0 for none. The regex engine tries the
      greedy split first — digits, dots, digits — and, when no digit follows
      the dots, backtracks to the leading digits alone. */
  function MatchLength(s: string, i: nat): (n: nat)
    requires i <= |s|
    ensures i + n <= |s|
  {
    var a := DigitRun(s, i);
    var b := DotRun(s, i + a);
    var c := DigitRun(s, i + a + b);
    if b > 0 && c > 0 then a + b + c else a
  }

  // ---------------------------------------------------------------------------
  // The pattern, as a reference

  predicate AllDots(s: string)
  {
    forall k :: 0 <= k < |s| ==> s[k] == '.'
  }

  /** `t` splits as digits, then dots, then at least one digit. */
  predicate SplitsAt(t: string, j: nat, k: nat)
  {
    j <= k < |t| && AllDigits(t[..j]) && AllDots(t[j..k]) && AllDigits(t[k..])
  }

  /** `t` is a whole match of `\d*\.*\d+`. */
  ghost predicate InPattern(t: string)
  {
    exists j: nat, k: nat :: SplitsAt(t, j, k)
  }

  /** A run of digits from `i` cannot be longer than the digit run there. */
  lemma DigitsWithinRun(s: string, i: nat, e: nat)
    requires i <= e <= |s|
    ensures (forall p :: i <= p < e ==> IsDigit(s[p])) ==> e - i <= DigitRun(s, i)
  {
    DigitRunSpan(s, i);
  }

  lemma DotsWithinRun(s: string, i: nat, e: nat)
    requires i <= e <= |s|
    ensures (forall p :: i <= p < e ==> s[p] == '.') ==> e - i <= DotRun(s, i)
  {
    DotRunSpan(s, i);
  }

  lemma SliceDigits(s: string, lo: nat, hi: nat)
    requires lo <= hi <= |s|
    ensures AllDigits(s[lo..hi]) <==> forall p :: lo <= p < hi ==> IsDigit(s[p])
  {
    if AllDigits(s[lo..hi]) {
      forall p | lo <= p < hi ensures IsDigit(s[p]) {
        assert s[p] == s[lo..hi][p - lo];
      }
    }
    assert forall p :: 0 <= p < hi - lo ==> s[lo..hi][p] == s[lo + p];
  }

  lemma SliceDots(s: string, lo: nat, hi: nat)
    requires lo <= hi <= |s|
    ensures AllDots(s[lo..hi]) <==> forall p :: lo <= p < hi ==> s[p] == '.'
  {
    if AllDots(s[lo..hi]) {
      forall p | lo <= p < hi ensures s[p] == '.' {
        assert s[p] == s[lo..hi][p - lo];
      }
    }
  }

  /** Digits, dots, then digits on `[i, e)` form a split of `s[i..e]`. */
  lemma DottedSplit(s: string, i: nat, a: nat, b: nat, e: nat)
    requires i + a + b < e <= |s|
    requires forall p :: i <= p < i + a ==> IsDigit(s[p])
    requires forall p :: i + a <= p < i + a + b ==> s[p] == '.'
    requires forall p :: i + a + b <= p < e ==> IsDigit(s[p])
    ensures SplitsAt(s[i..e], a, a + b)
  {
    var t := s[i..e];
    var lead, dots, tail := t[..a], t[a..a + b], t[a + b..];
    forall p | 0 <= p < |lead| ensures IsDigit(lead[p]) {
      assert lead[p] == s[i + p];
    }
    forall p | 0 <= p < |dots| ensures dots[p] == '.' {
      var q := i + a + p;
      assert i + a <= q < i + a + b;
      assert s[q] == '.';
      assert dots[p] == s[q];
    }
    forall p | 0 <= p < |tail| ensures IsDigit(tail[p]) {
      var q := i + a + b + p;
      assert i + a + b <= q < e;
      assert IsDigit(s[q]);
      assert tail[p] == s[q];
    }
  }

  /** Digits alone on `[i, e)`, with `i < e`, form a split of `s[i..e]`. */
  lemma UndottedSplit(s: string, i: nat, e: nat)
    requires i < e <= |s|
    requires forall p :: i <= p < e ==> IsDigit(s[p])
    ensures SplitsAt(s[i..e], 0, 0)
  {
    var t := s[i..e];
    forall p | 0 <= p < e - i ensures IsDigit(t[0..][p]) {
      assert t[0..][p] == s[i + p];
    }
    assert t[..0] == [] && t[0..0] == [];
  }

  /** The match found at `i` is in the pattern. */
  lemma MatchInPattern(s: string, i: nat)
    requires i <= |s| && MatchLength(s, i) > 0
    ensures InPattern(s[i..i + MatchLength(s, i)])
  {
    var a := DigitRun(s, i);
    var b := DotRun(s, i + a);
    var c := DigitRun(s, i + a + b);
    DigitRunSpan(s, i);
    if b > 0 && c > 0 {
      DotRunSpan(s, i + a);
      DigitRunSpan(s, i + a + b);
      DottedSplit(s, i, a, b, i + a + b + c);
    } else {
      UndottedSplit(s, i, i + a);
    }
  }

  /** Digits on `[i, i + j)`, dots on `[i + j, i + k)` and digits on
      `[i + k, e)` with `k < e`: then `e` is within the match at `i`. */
  lemma RunsWithinMatch(s: string, i: nat, j: nat, k: nat, e: nat)
    requires i + j <= i + k < e <= |s|
    requires forall p :: i <= p < i + j ==> IsDigit(s[p])
    requires forall p :: i + j <= p < i + k ==> s[p] == '.'
    requires forall p :: i + k <= p < e ==> IsDigit(s[p])
    ensures e <= i + MatchLength(s, i)
  {
    var a := DigitRun(s, i);
    var b := DotRun(s, i + a);
    DigitRunSpan(s, i);
    DotRunSpan(s, i + a);
    DigitRunSpan(s, i + a + b);
    DigitsWithinRun(s, i, i + j);
    DigitsWithinRun(s, i, e);
    if i + j <= i + a + b {
      DotsWithinRun(s, i + j, i + k);
    }
    DigitsWithinRun(s, i + k, e);
  }

  /** Every split prefix of `s[i..]` is at most as long as the match at `i`. */
  lemma SplitWithinMatch(s: string, i: nat, e: nat, j: nat, k: nat)
    requires i <= e <= |s|
    ensures SplitsAt(s[i..e], j, k) ==> e <= i + MatchLength(s, i)
  {
    var t := s[i..e];
    if SplitsAt(t, j, k) {
      SliceDigits(t, 0, j);
      SliceDots(t, j, k);
      SliceDigits(t, k, |t|);
      assert t[0..j] == t[..j];
      assert t[k..|t|] == t[k..];
      forall p | i <= p < i + j ensures IsDigit(s[p]) { assert s[p] == t[p - i]; }
      forall p | i + j <= p < i + k ensures s[p] == '.' { assert s[p] == t[p - i]; }
      forall p | i + k <= p < e ensures IsDigit(s[p]) { assert s[p] == t[p - i]; }
      RunsWithinMatch(s, i, j, k, e);
    }
  }

  /** The match at `i` is the longest prefix of `s[i..]` in the pattern, and
      there is none when the match is empty. */
  lemma MatchIsLongest(s: string, i: nat)
    requires i <= |s|
    ensures MatchLength(s, i) > 0 ==> InPattern(s[i..i + MatchLength(s, i)])
    ensures forall e :: i + MatchLength(s, i) < e <= |s| ==> !InPattern(s[i..e])
  {
    if MatchLength(s, i) > 0 {
      MatchInPattern(s, i);
    }
    forall e | i + MatchLength(s, i) < e <= |s|
      ensures !InPattern(s[i..e])
    {
      forall j: nat, k: nat ensures !SplitsAt(s[i..e], j, k) {
        SplitWithinMatch(s, i, e, j, k);
      }
    }
  }

  // ---------------------------------------------------------------------------
  // findall

  /** A string the pattern matches whole, from its first character. */
  predicate IsToken(t: string)
  {
    |t| > 0 && MatchLength(t, 0) == |t|
  }

  /** The runs of a slice are those of the string, cut at the slice's end. */
  lemma DigitRunSlice(s: string, i: nat, e: nat, p: nat)
    requires i <= p <= e <= |s|
    ensures DigitRun(s[i..e], p - i) == if DigitRun(s, p) <= e - p then DigitRun(s, p) else e - p
    decreases e - p
  {
    if p < e && IsDigit(s[p]) {
      assert s[i..e][p - i] == s[p];
      DigitRunSlice(s, i, e, p + 1);
    } else if p < e {
      assert s[i..e][p - i] == s[p];
    }
  }

  lemma DotRunSlice(s: string, i: nat, e: nat, p: nat)
    requires i <= p <= e <= |s|
    ensures DotRun(s[i..e], p - i) == if DotRun(s, p) <= e - p then DotRun(s, p) else e - p
    decreases e - p
  {
    if p < e && s[p] == '.' {
      assert s[i..e][p - i] == s[p];
      DotRunSlice(s, i, e, p + 1);
    } else if p < e {
      assert s[i..e][p - i] == s[p];
    }
  }

  /** What `findall` collects at position `i` is a token. */
  lemma MatchIsToken(s: string, i: nat)
    requires i <= |s| && MatchLength(s, i) > 0
    ensures IsToken(s[i..i + MatchLength(s, i)])
  {
    var n := MatchLength(s, i);
    var a := DigitRun(s, i);
    var b := DotRun(s, i + a);
    var c := DigitRun(s, i + a + b);
    DigitRunSlice(s, i, i + n, i);
    if b > 0 && c > 0 {
      DotRunSlice(s, i, i + n, i + a);
      DigitRunSlice(s, i, i + n, i + a + b);
    } else {
      DotRunSlice(s, i, i + n, i + a);
    }
  }

  /** The non-overlapping matches from position `i` on, left to right. */
  function Scan(s: string, i: nat): (r: seq<string>)
    requires i <= |s|
    ensures forall k :: 0 <= k < |r| ==> IsToken(r[k])
    decreases |s| - i
  {
    if i == |s| then []
    else if MatchLength(s, i) == 0 then Scan(s, i + 1)
    else
      MatchIsToken(s, i);
      [MatchAt(s, i)] + Scan(s, i + MatchLength(s, i))
  }

  /** The text of the match at `i`. */
  function MatchAt(s: string, i: nat): string
    requires i <= |s|
  {
    s[i..i + MatchLength(s, i)]
  }

  /** `re.findall(r"\d*\.*\d+", s)`. */
  function FindNumbers(s: string): (r: seq<string>)
    ensures forall k :: 0 <= k < |r| ==> IsToken(r[k])
  {
    Scan(s, 0)
  }

  // ---------------------------------------------------------------------------
  // What findall finds

  /** Where the scan from `i` takes its matches. */
  function MatchStarts(s: string, i: nat): (r: seq<nat>)
    requires i <= |s|
    ensures forall k :: 0 <= k < |r| ==> i <= r[k] < |s|
    decreases |s| - i
  {
    if i == |s| then []
    else if MatchLength(s, i) == 0 then MatchStarts(s, i + 1)
    else [i] + MatchStarts(s, i + MatchLength(s, i))
  }

  /** The matches are taken from `i` on, each where a match begins, in
      increasing order, none overlapping a later one. */
  lemma {:induction false} MatchStartsOrdered(s: string, i: nat)
    requires i <= |s|
    ensures forall k :: 0 <= k < |MatchStarts(s, i)| ==>
              i <= MatchStarts(s, i)[k] < |s| && MatchLength(s, MatchStarts(s, i)[k]) > 0
    ensures forall j, k :: 0 <= j < k < |MatchStarts(s, i)| ==>
              MatchStarts(s, i)[j] + MatchLength(s, MatchStarts(s, i)[j]) <= MatchStarts(s, i)[k]
    decreases |s| - i
  {
    if i < |s| {
      var n := MatchLength(s, i);
      if n == 0 {
        MatchStartsOrdered(s, i + 1);
        assert MatchStarts(s, i) == MatchStarts(s, i + 1);
      } else {
        var rest := MatchStarts(s, i + n);
        MatchStartsOrdered(s, i + n);
        assert MatchStarts(s, i) == [i] + rest;
      }
    }
  }

  /** The scan takes one string per match position. */
  lemma {:induction false} ScanLength(s: string, i: nat)
    requires i <= |s|
    ensures |Scan(s, i)| == |MatchStarts(s, i)|
    decreases |s| - i
  {
    if i < |s| {
      var n := MatchLength(s, i);
      if n == 0 {
        ScanLength(s, i + 1);
      } else {
        ScanLength(s, i + n);
      }
    }
  }

  /** The scan's `k`-th string is the match at the `k`-th match position. */
  lemma {:induction false} ScanAt(s: string, i: nat, k: nat)
    requires i <= |s| && k < |MatchStarts(s, i)|
    ensures k < |Scan(s, i)| && Scan(s, i)[k] == MatchAt(s, MatchStarts(s, i)[k])
    decreases |s| - i
  {
    ScanLength(s, i);
    var n := MatchLength(s, i);
    if n == 0 {
      ScanAt(s, i + 1, k);
      assert Scan(s, i) == Scan(s, i + 1);
      assert MatchStarts(s, i) == MatchStarts(s, i + 1);
    } else {
      var found, rest := Scan(s, i + n), MatchStarts(s, i + n);
      assert Scan(s, i) == [MatchAt(s, i)] + found;
      assert MatchStarts(s, i) == [i] + rest;
      if k > 0 {
        ScanAt(s, i + n, k - 1);
        assert Scan(s, i)[k] == found[k - 1];
        assert MatchStarts(s, i)[k] == rest[k - 1];
      }
    }
  }

  /** The scan's strings are the matches at those positions, in order. */
  lemma {:induction false} ScanAtStarts(s: string, i: nat)
    requires i <= |s|
    ensures |Scan(s, i)| == |MatchStarts(s, i)|
    ensures forall k :: 0 <= k < |Scan(s, i)| ==> Scan(s, i)[k] == MatchAt(s, MatchStarts(s, i)[k])
  {
    ScanLength(s, i);
    forall k | 0 <= k < |Scan(s, i)|
      ensures Scan(s, i)[k] == MatchAt(s, MatchStarts(s, i)[k])
    {
      ScanAt(s, i, k);
    }
  }

  /** Position `q` lies inside the match that starts at `p`. */
  predicate InMatch(s: string, p: nat, q: nat)
  {
    p <= |s| && p <= q < p + MatchLength(s, p)
  }

  /** Position `q` lies inside one of the matches the scan from `i` takes. */
  ghost predicate Covered(s: string, i: nat, q: nat)
    requires i <= |s|
  {
    exists k :: 0 <= k < |MatchStarts(s, i)| && InMatch(s, MatchStarts(s, i)[k], q)
  }

  /** A match can begin at position `q`. */
  predicate CanMatch(s: string, q: nat)
    requires q <= |s|
  {
    MatchLength(s, q) > 0
  }

  /** A position from `i` at which a match could begin lies inside one of the
      matches the scan from `i` takes. */
  lemma {:induction false} CoveredAt(s: string, i: nat, q: nat)
    requires i <= q < |s| && CanMatch(s, q)
    ensures Covered(s, i, q)
    decreases |s| - i
  {
    var n := MatchLength(s, i);
    if n == 0 {
      CoveredAt(s, i + 1, q);
      CoveredPastNoMatch(s, i, q);
    } else if q < i + n {
      CoveredByFirst(s, i, q);
    } else {
      CoveredAt(s, i + n, q);
      CoveredPastMatch(s, i, q);
    }
  }

  /** With no match at `i`, the scan from `i` takes what the scan from `i + 1` does. */
  lemma CoveredPastNoMatch(s: string, i: nat, q: nat)
    requires i < |s| && MatchLength(s, i) == 0 && Covered(s, i + 1, q)
    ensures Covered(s, i, q)
  {
    assert MatchStarts(s, i) == MatchStarts(s, i + 1);
  }

  /** A position inside the match at `i` is covered by the scan from `i`. */
  lemma CoveredByFirst(s: string, i: nat, q: nat)
    requires i <= |s| && i <= q < i + MatchLength(s, i)
    ensures Covered(s, i, q)
  {
    var starts := MatchStarts(s, i);
    assert starts == [i] + MatchStarts(s, i + MatchLength(s, i));
    assert InMatch(s, starts[0], q);
  }

  /** After the match at `i`, the scan from `i` takes what the scan from its
      end does. */
  lemma CoveredPastMatch(s: string, i: nat, q: nat)
    requires i < |s| && MatchLength(s, i) > 0
    requires Covered(s, i + MatchLength(s, i), q)
    ensures Covered(s, i, q)
  {
    var rest := MatchStarts(s, i + MatchLength(s, i));
    var starts := MatchStarts(s, i);
    assert starts == [i] + rest;
    var k :| 0 <= k < |rest| && InMatch(s, rest[k], q);
    assert starts[k + 1] == rest[k];
  }

  /** Leftmost matching: every position from `i` at which a match could begin
      lies inside one of the matches taken, at its start or within it. */
  lemma {:induction false} ScanLeftmost(s: string, i: nat)
    requires i <= |s|
    ensures forall q :: i <= q < |s| && CanMatch(s, q) ==> Covered(s, i, q)
  {
    forall q | i <= q < |s| && CanMatch(s, q)
      ensures Covered(s, i, q)
    {
      CoveredAt(s, i, q);
    }
  }

  /** A match can begin at every digit. */
  lemma DigitStartsMatch(s: string, q: nat)
    requires q < |s| && IsDigit(s[q])
    ensures MatchLength(s, q) > 0
  {
  }

  /** A match holds a digit. */
  lemma MatchHasDigit(s: string, q: nat)
    requires q <= |s| && MatchLength(s, q) > 0
    ensures q < |s| && exists p :: q <= p < |s| && IsDigit(s[p])
  {
    DigitRunSpan(s, q);
    var a := DigitRun(s, q);
    if a == 0 {
      var b := DotRun(s, q);
      DigitRunSpan(s, q + b);
      assert IsDigit(s[q + b]);
    } else {
      assert IsDigit(s[q]);
    }
  }

  /** A digit lies inside one of the matches taken from the start. */
  lemma {:induction false} DigitCovered(s: string, q: nat)
    requires q < |s| && IsDigit(s[q])
    ensures Covered(s, 0, q)
  {
    DigitStartsMatch(s, q);
    CoveredAt(s, 0, q);
  }

  /** Every digit of `s` is inside one of the strings `findall` returns. */
  lemma {:induction false} FindNumbersCoversDigits(s: string)
    ensures forall q :: 0 <= q < |s| && IsDigit(s[q]) ==> Covered(s, 0, q)
  {
    forall q | 0 <= q < |s| && IsDigit(s[q])
      ensures Covered(s, 0, q)
    {
      DigitCovered(s, q);
    }
  }

  /** `findall` finds nothing exactly when the text has no digit. */
  lemma {:induction false} FindNumbersEmptyIff(s: string)
    ensures FindNumbers(s) == [] <==> forall q :: 0 <= q < |s| ==> !IsDigit(s[q])
  {
    ScanAtStarts(s, 0);
    FindNumbersCoversDigits(s);
    var starts := MatchStarts(s, 0);
    if starts != [] {
      MatchHasDigit(s, starts[0]);
    }
  }

  /** A dotted version number is two tokens: the second starts at its dot. */
  lemma VersionNumberTokens()
    ensures FindNumbers("1.2.3") == ["1.2", ".3"]
  {
    var s := "1.2.3";
    assert MatchLength(s, 0) == 3 by {
      assert DigitRun(s, 0) == 1 && DotRun(s, 1) == 1 && DigitRun(s, 2) == 1;
    }
    assert MatchLength(s, 3) == 2 by {
      assert DigitRun(s, 3) == 0 && DotRun(s, 3) == 1 && DigitRun(s, 4) == 1;
    }
    assert Scan(s, 3) == [s[3..5]] + Scan(s, 5);
    assert Scan(s, 0) == [s[0..3]] + Scan(s, 3);
    assert s[0..3] == "1.2" && s[3..5] == ".3";
  }

  /** A run of dots between digits stays inside one token. */
  lemma DoubleDotToken()
    ensures FindNumbers("1..5 mg") == ["1..5"]
  {
    var s := "1..5 mg";
    assert MatchLength(s, 0) == 4 by {
      assert DigitRun(s, 0) == 1 && DotRun(s, 1) == 2 && DigitRun(s, 3) == 1;
    }
    assert MatchLength(s, 4) == 0 && MatchLength(s, 5) == 0 && MatchLength(s, 6) == 0;
    assert Scan(s, 4) == [] by {
      assert Scan(s, 6) == Scan(s, 7) == [];
      assert Scan(s, 5) == Scan(s, 6);
    }
    assert Scan(s, 0) == [s[0..4]] + Scan(s, 4);
    assert s[0..4] == "1..5";
  }

  // ---------------------------------------------------------------------------
  // float()

  /** A token without dots is all digits. */
  lemma UndottedToken(t: string)
    requires IsToken(t) && DotRun(t, DigitRun(t, 0)) == 0
    ensures AllDigits(t)
  {
    DigitRunSpan(t, 0);
    assert MatchLength(t, 0) == DigitRun(t, 0);
  }

  /** A token with dots is digits, then dots from position `a`, then at least
      one digit. */
  lemma DottedToken(t: string, a: nat, b: nat)
    requires IsToken(t) && a == DigitRun(t, 0) && b == DotRun(t, a) && b > 0
    ensures a + b < |t| && t[a] == '.'
    ensures AllDigits(t[..a]) && AllDigits(t[a + b..])
  {
    DottedTokenRuns(t, a, b);
    SliceDigits(t, 0, a);
    SliceDigits(t, a + b, |t|);
    assert t[..a] == t[0..a];
    assert t[a + b..] == t[a + b..|t|];
  }

  /** The same, position by position. */
  lemma DottedTokenRuns(t: string, a: nat, b: nat)
    requires IsToken(t) && a == DigitRun(t, 0) && b == DotRun(t, a) && b > 0
    ensures a + b < |t| && t[a] == '.'
    ensures forall p :: 0 <= p < a ==> IsDigit(t[p])
    ensures forall p :: a + b <= p < |t| ==> IsDigit(t[p])
  {
    assert MatchLength(t, 0) == |t|;
    DigitRunSpan(t, 0);
    DotRunSpan(t, a);
    DigitRunSpan(t, a + b);
  }

  /** `float(t)` for a token: digits read as an integer, or integer part and
      fraction around a single dot; a token with two or more dots is not a
      number (the call raises). */
  function TokenValue(t: string): (v: Option<real>)
    requires IsToken(t)
    ensures v.Some? ==> v.value >= 0.0
    ensures v.None? <==> DotRun(t, DigitRun(t, 0)) >= 2
  {
    var a := DigitRun(t, 0);
    var b := DotRun(t, a);
    if b == 0 then
      UndottedToken(t);
      Some(FromDecimal(t) as real)
    else if b == 1 then
      DottedToken(t, a, b);
      Some(FromDecimal(t[..a]) as real + FromDecimal(t[a + 1..]) as real / Pow10(|t| - a - 1) as real)
    else None
  }

  /** A token reads as a positive number exactly when one of its digits is
      not zero (provided it reads at all). */
  lemma TokenValuePositive(t: string)
    requires IsToken(t) && TokenValue(t).Some?
    ensures TokenValue(t).value > 0.0 <==> exists p :: 0 <= p < |t| && IsDigit(t[p]) && t[p] != '0'
  {
    var a := DigitRun(t, 0);
    var b := DotRun(t, a);
    if b == 0 {
      UndottedToken(t);
      FromDecimalPositive(t);
    } else {
      DottedToken(t, a, b);
      var whole := t[..a];
      var frac := t[a + 1..];
      FromDecimalPositive(whole);
      FromDecimalPositive(frac);
      var scale := Pow10(|t| - a - 1) as real;
      assert FromDecimal(frac) as real / scale > 0.0 <==> FromDecimal(frac) > 0;
      if exists p :: 0 <= p < |t| && IsDigit(t[p]) && t[p] != '0' {
        var p :| 0 <= p < |t| && IsDigit(t[p]) && t[p] != '0';
        if p < a {
          assert whole[p] == t[p];
        } else {
          assert frac[p - a - 1] == t[p];
        }
      }
      if exists q :: 0 <= q < |whole| && whole[q] != '0' {
        var q :| 0 <= q < |whole| && whole[q] != '0';
        assert whole[q] == t[q];
      }
      if exists q :: 0 <= q < |frac| && frac[q] != '0' {
        var q :| 0 <= q < |frac| && frac[q] != '0';
        assert frac[q] == t[a + 1 + q];
      }
    }
  }

  /** Readings of a few tokens: a decimal fraction, an integer, and a token
      with two dots, which does not read. */
  lemma TokenValueExamples()
    ensures IsToken("0.25") && TokenValue("0.25") == Some(0.25)
    ensures IsToken("12") && TokenValue("12") == Some(12.0)
    ensures IsToken("1..2") && TokenValue("1..2") == None
  {
    var t := "0.25";
    assert DigitRun(t, 0) == 1 && DotRun(t, 1) == 1 && DigitRun(t, 2) == 2;
    assert t[..1] == "0" && t[2..] == "25";
    assert FromDecimal("25") == 25 by {
      assert "25"[..1] == "2";
    }
    assert Pow10(2) == 100;
    var u := "12";
    assert DigitRun(u, 0) == 2 && DotRun(u, 2) == 0;
    assert FromDecimal(u) == 12 by {
      assert u[..1] == "1";
    }
    var w := "1..2";
    assert DigitRun(w, 0) == 1 && DotRun(w, 1) == 2 && DigitRun(w, 3) == 1;
  }
}
