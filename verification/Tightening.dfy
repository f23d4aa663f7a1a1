/** The tightening suggester: the longest common substring, computed with two
    rows of a table of common endings that take turns, folded over the last
    suppressed lines of a rule until a link is too short, and trimmed of the
    white space around it. */
module Tightening {
  import opened Chars
  import opened Suppressions
  import opened Text

  // --------------------------------------------------- longest common substring

  ghost predicate Contains(s: string, t: string) {
    exists k: nat :: OccursAt(s, t, k)
  }

  // Length of the longest common ending of a[..i] and b[..j].
  function Ending(a: string, b: string, i: nat, j: nat): (n: nat)
    requires i <= |a| && j <= |b|
    ensures n <= i && n <= j
  {
    if i == 0 || j == 0 || a[i - 1] != b[j - 1] then 0 else Ending(a, b, i - 1, j - 1) + 1
  }

  lemma {:induction false} EndingIsCommon(a: string, b: string, i: nat, j: nat)
    requires i <= |a| && j <= |b|
    ensures var n := Ending(a, b, i, j); a[i - n..i] == b[j - n..j]
  {
    var n := Ending(a, b, i, j);
    if n > 0 {
      EndingIsCommon(a, b, i - 1, j - 1);
      assert a[i - n..i] == a[i - n..i - 1] + [a[i - 1]];
      assert b[j - n..j] == b[j - n..j - 1] + [b[j - 1]];
    }
  }

  lemma {:induction false} CommonIsEnding(a: string, b: string, i: nat, j: nat, n: nat)
    requires n <= i <= |a| && n <= j <= |b| && a[i - n..i] == b[j - n..j]
    ensures n <= Ending(a, b, i, j)
  {
    if n > 0 {
      assert a[i - n..i][n - 1] == a[i - 1] && b[j - n..j][n - 1] == b[j - 1];
      assert a[i - n..i - 1] == a[i - n..i][..n - 1] && b[j - n..j - 1] == b[j - n..j][..n - 1];
      CommonIsEnding(a, b, i - 1, j - 1, n - 1);
    }
  }

  // Cells that the table has filled when row i is being filled at column j.
  predicate Before(i: nat, j: nat, i': nat, j': nat) {
    i' < i || (i' == i && j' < j)
  }

  // The best ending so far: reached at row `end`, not reached above it.
  ghost predicate Best(a: string, b: string, i: nat, j: nat, len: nat, end: nat) {
    && len <= end <= |a|
    && (forall i', j' | 0 <= i' <= |a| && 0 <= j' <= |b| && Before(i, j, i', j') :: Ending(a, b, i', j') <= len)
    && (len == 0 ==> end == 0)
    && (len > 0 ==> exists j' :: 0 <= j' <= |b| && Before(i, j, end, j') && Ending(a, b, end, j') == len)
    && (forall i', j' | 0 <= i' < end && 0 <= j' <= |b| :: Ending(a, b, i', j') < len)
  }

  ghost predicate IsRow(row: seq<int>, a: string, b: string, i: nat, upto: nat) {
    && |row| == |b| + 1 && i <= |a| && upto <= |b| + 1
    && forall j | 0 <= j < upto :: row[j] == Ending(a, b, i, j)
  }

  ghost predicate IsLongestCommon(a: string, b: string, s: string) {
    && Contains(a, s) && Contains(b, s)
    && forall t | Contains(a, t) && Contains(b, t) :: |t| <= |s|
  }

  // Of all common substrings as long, none occurs in `a` before this one.
  ghost predicate FirstAt(a: string, b: string, s: string, at: nat) {
    && OccursAt(a, s, at)
    && forall t, k: nat | |t| == |s| && OccursAt(a, t, k) && Contains(b, t) :: at <= k
  }

  lemma BestIsCommon(a: string, b: string, len: nat, end: nat)
    requires Best(a, b, |a| + 1, 0, len, end)
    ensures OccursAt(a, a[end - len..end], end - len) && Contains(b, a[end - len..end])
  {
    var s := a[end - len..end];
    if len == 0 {
      assert OccursAt(b, s, 0);
    } else {
      var j :| 0 <= j <= |b| && Ending(a, b, end, j) == len;
      EndingIsCommon(a, b, end, j);
      assert OccursAt(b, s, j - len);
    }
  }

  lemma CommonIsNoBetter(a: string, b: string, len: nat, end: nat, t: string, k: nat, m: nat)
    requires Best(a, b, |a| + 1, 0, len, end) && OccursAt(a, t, k) && OccursAt(b, t, m)
    ensures |t| <= len && (|t| == len ==> end - len <= k)
  {
    CommonIsEnding(a, b, k + |t|, m + |t|, |t|);
    assert Before(|a| + 1, 0, k + |t|, m + |t|);
  }

  lemma BestIsLongest(a: string, b: string, len: nat, end: nat)
    requires Best(a, b, |a| + 1, 0, len, end)
    ensures IsLongestCommon(a, b, a[end - len..end]) && FirstAt(a, b, a[end - len..end], end - len)
  {
    BestIsCommon(a, b, len, end);
    forall t, k: nat | OccursAt(a, t, k) && Contains(b, t)
      ensures |t| <= len && (|t| == len ==> end - len <= k)
    {
      var m: nat :| OccursAt(b, t, m);
      CommonIsNoBetter(a, b, len, end, t, k, m);
    }
  }

  // Row i of the table, from the row above it.
  method FillRow(a: string, b: string, i: nat, prev: array<int>, curr: array<int>, len: nat, end: nat)
    returns (bestLen: nat, bestEnd: nat)
    requires 1 <= i <= |a| && prev != curr && prev.Length == curr.Length == |b| + 1
    requires IsRow(prev[..], a, b, i - 1, |b| + 1) && curr[0] == 0
    requires Best(a, b, i, 0, len, end)
    modifies curr
    ensures IsRow(curr[..], a, b, i, |b| + 1)
    ensures Best(a, b, i + 1, 0, bestLen, bestEnd)
  {
    bestLen, bestEnd := len, end;
    var j := 1;
    while j <= |b|
      invariant 1 <= j <= |b| + 1
      invariant IsRow(curr[..], a, b, i, j)
      invariant Best(a, b, i, j, bestLen, bestEnd)
    {
      if a[i - 1] == b[j - 1] {
        assert prev[j - 1] == prev[..][j - 1] == Ending(a, b, i - 1, j - 1);
        curr[j] := prev[j - 1] + 1;
        if curr[j] > bestLen {
          bestLen, bestEnd := curr[j], i;
        }
      } else {
        curr[j] := 0;
      }
      j := j + 1;
    }
  }

  method LongestCommonSubstring(a: string, b: string) returns (s: string)
    ensures IsLongestCommon(a, b, s)
    ensures exists at: nat :: FirstAt(a, b, s, at)
  {
    if |a| == 0 || |b| == 0 {
      NothingFound(a, b);
      BestIsLongest(a, b, 0, 0);
      assert FirstAt(a, b, a[0..0], 0);
      assert a[0..0] == "";
      return "";
    }
    var prev := new int[|b| + 1](_ => 0);
    var curr := new int[|b| + 1](_ => 0);
    var bestLen: nat, bestEnd: nat := 0, 0;
    ZeroRow(prev[..], a, b);
    var i := 1;
    while i <= |a|
      invariant 1 <= i <= |a| + 1
      invariant prev != curr && fresh(prev) && fresh(curr) && prev.Length == curr.Length == |b| + 1
      invariant IsRow(prev[..], a, b, i - 1, |b| + 1)
      invariant curr[0] == 0
      invariant Best(a, b, i, 0, bestLen, bestEnd)
    {
      bestLen, bestEnd := FillRow(a, b, i, prev, curr, bestLen, bestEnd);
      prev, curr := curr, prev;
      Fill(curr);
      i := i + 1;
    }
    BestIsLongest(a, b, bestLen, bestEnd);
    s := a[bestEnd - bestLen..bestEnd];
    assert FirstAt(a, b, s, bestEnd - bestLen);
  }

  lemma NothingFound(a: string, b: string)
    requires |a| == 0 || |b| == 0
    ensures Best(a, b, |a| + 1, 0, 0, 0)
  {
  }

  lemma ZeroRow(row: seq<int>, a: string, b: string)
    requires |row| == |b| + 1 && forall j | 0 <= j < |row| :: row[j] == 0
    ensures IsRow(row, a, b, 0, |b| + 1) && Best(a, b, 1, 0, 0, 0)
  {
  }

  method Fill(row: array<int>)
    modifies row
    ensures forall j | 0 <= j < row.Length :: row[j] == 0
  {
    var j := 0;
    while j < row.Length
      invariant 0 <= j <= row.Length && forall k | 0 <= k < j :: row[k] == 0
    {
      row[j] := 0;
      j := j + 1;
    }
  }

  // ----------------------------------------------------------------- suggestion

  predicate IsStructural(c: char) {
    IsSpace(c) || c in "(){}[];,\"'<>"
  }

  predicate LooksStructural(s: string) {
    exists k :: 0 <= k < |s| && IsStructural(s[k])
  }

  predicate Counts(rule: string, r: Suppression) {
    r.rule == rule && r.line != ""
  }

  // The lines of a rule's suppressions that have one, newest first.
  function LinesOf(suppressions: seq<Suppression>, rule: string): seq<string> {
    if suppressions == [] then []
    else
      var last := suppressions[|suppressions| - 1];
      (if Counts(rule, last) then [last.line] else []) + LinesOf(suppressions[..|suppressions| - 1], rule)
  }

  function Take<T>(s: seq<T>, n: int): seq<T> {
    if n < 0 then [] else if n < |s| then s[..n] else s
  }

  function Samples(suppressions: seq<Suppression>, rule: string, maxSamples: int): seq<string> {
    Take(LinesOf(suppressions, rule), maxSamples)
  }

  lemma {:induction false} ContainsTransitive(a: string, b: string, c: string)
    requires Contains(a, b) && Contains(b, c)
    ensures Contains(a, c)
  {
    var i: nat :| OccursAt(a, b, i);
    var j: nat :| OccursAt(b, c, j);
    assert i + |b| <= |a| && j + |c| <= |b|;
    assert forall k | 0 <= k < |c| :: c[k] == b[j..j + |c|][k] == b[j + k] == a[i..i + |b|][j + k] == a[i + j + k];
    assert a[i + j..i + j + |c|] == c;
    assert OccursAt(a, c, i + j);
  }

  function TrimLeft(s: string): string {
    if s != "" && IsSpace(s[0]) then TrimLeft(s[1..]) else s
  }

  function TrimRight(s: string): string {
    if s != "" && IsSpace(s[|s| - 1]) then TrimRight(s[..|s| - 1]) else s
  }

  lemma {:induction false} TrimLeftKeeps(s: string)
    ensures Contains(s, TrimLeft(s))
    decreases |s|
  {
    if s != "" && IsSpace(s[0]) {
      TrimLeftKeeps(s[1..]);
      assert OccursAt(s, s[1..], 1);
      ContainsTransitive(s, s[1..], TrimLeft(s));
    } else {
      assert OccursAt(s, s, 0);
    }
  }

  lemma {:induction false} TrimRightKeeps(s: string)
    ensures Contains(s, TrimRight(s))
    decreases |s|
  {
    if s != "" && IsSpace(s[|s| - 1]) {
      TrimRightKeeps(s[..|s| - 1]);
      assert OccursAt(s, s[..|s| - 1], 0);
      ContainsTransitive(s, s[..|s| - 1], TrimRight(s));
    } else {
      assert OccursAt(s, s, 0);
    }
  }

  // The lines at or before row k, behind those collected.
  lemma NextLine(suppressions: seq<Suppression>, rule: string, k: nat, samples: seq<string>)
    requires k < |suppressions|
    ensures samples + LinesOf(suppressions[..k + 1], rule)
         == (if Counts(rule, suppressions[k]) then samples + [suppressions[k].line] else samples)
            + LinesOf(suppressions[..k], rule)
  {
    var older := suppressions[..k];
    assert suppressions[..k + 1][..k] == older && suppressions[..k + 1][k] == suppressions[k];
    if Counts(rule, suppressions[k]) {
      assert samples + ([suppressions[k].line] + LinesOf(older, rule))
          == samples + [suppressions[k].line] + LinesOf(older, rule);
    } else {
      assert [] + LinesOf(older, rule) == LinesOf(older, rule);
    }
  }

  method CollectSamples(suppressions: seq<Suppression>, rule: string, maxSamples: int) returns (samples: seq<string>)
    requires maxSamples >= 2
    ensures samples == Samples(suppressions, rule, maxSamples)
  {
    samples := [];
    var k := |suppressions|;
    ghost var all := LinesOf(suppressions, rule);
    assert suppressions[..k] == suppressions && [] + all == all;
    while k > 0 && |samples| < maxSamples
      invariant 0 <= k <= |suppressions| && |samples| <= maxSamples
      invariant all == samples + LinesOf(suppressions[..k], rule)
    {
      k := k - 1;
      NextLine(suppressions, rule, k, samples);
      if Counts(rule, suppressions[k]) {
        samples := samples + [suppressions[k].line];
      }
    }
    TakesHead(samples, LinesOf(suppressions[..k], rule), maxSamples);
  }

  lemma TakesHead(samples: seq<string>, rest: seq<string>, maxSamples: nat)
    requires |samples| <= maxSamples && (rest == [] || |samples| == maxSamples)
    ensures Take(samples + rest, maxSamples) == samples
  {
  }

  // The running intersection: each link is a longest common substring of the
  // link before and the next sample; the chain stops at a link that is short.
  ghost predicate IsFold(samples: seq<string>, minLength: int, chain: seq<string>) {
    && 1 <= |chain| <= |samples| && chain[0] == samples[0]
    && (forall k | 1 <= k < |chain| :: IsLongestCommon(chain[k - 1], samples[k], chain[k]))
    && (forall k | 1 <= k < |chain| - 1 :: |chain[k]| >= minLength)
    && (|chain| < |samples| ==> |chain| > 1 && |chain[|chain| - 1]| < minLength)
  }

  function Verdict(candidate: string, minLength: int): string {
    var t := TrimRight(TrimLeft(candidate));
    if |candidate| < minLength || |t| < minLength || !LooksStructural(t) then "" else t
  }

  lemma {:induction false} LinkIsInEverySample(samples: seq<string>, minLength: int, chain: seq<string>, k: nat, j: nat)
    requires IsFold(samples, minLength, chain) && j <= k < |chain|
    ensures Contains(samples[j], chain[k])
  {
    if j < k {
      LinkIsInEverySample(samples, minLength, chain, k - 1, j);
      ContainsTransitive(samples[j], chain[k - 1], chain[k]);
    } else if k == 0 {
      assert OccursAt(samples[0], chain[0], 0);
    } else {
      assert IsLongestCommon(chain[k - 1], samples[k], chain[k]);
    }
  }

  // Would have dropped every sampled line; long enough, trimmed, structural.
  ghost predicate FitsAll(samples: seq<string>, minLength: int, suggestion: string) {
    && (forall k | 0 <= k < |samples| :: Contains(samples[k], suggestion))
    && |suggestion| >= minLength && LooksStructural(suggestion)
    && suggestion != "" && !IsSpace(suggestion[0]) && !IsSpace(suggestion[|suggestion| - 1])
  }

  lemma SuggestionFitsEverySample(samples: seq<string>, minLength: int, chain: seq<string>)
    requires |samples| >= 2 && IsFold(samples, minLength, chain)
    ensures var suggestion := Verdict(chain[|chain| - 1], minLength);
            suggestion != "" ==> FitsAll(samples, minLength, suggestion)
  {
    var last := chain[|chain| - 1];
    var suggestion := Verdict(last, minLength);
    if suggestion != "" {
      TrimLeftKeeps(last);
      TrimRightKeeps(TrimLeft(last));
      ContainsTransitive(last, TrimLeft(last), suggestion);
      forall k | 0 <= k < |samples| ensures Contains(samples[k], suggestion) {
        LinkIsInEverySample(samples, minLength, chain, |chain| - 1, k);
        ContainsTransitive(samples[k], last, suggestion);
      }
      TrimmedEnds(last);
    }
  }

  lemma {:induction false} TrimLeftEnds(s: string)
    ensures TrimLeft(s) != "" ==> !IsSpace(TrimLeft(s)[0])
    decreases |s|
  {
    if s != "" && IsSpace(s[0]) {
      TrimLeftEnds(s[1..]);
    }
  }

  lemma {:induction false} TrimRightEnds(s: string)
    ensures TrimRight(s) != "" ==> !IsSpace(TrimRight(s)[|TrimRight(s)| - 1]) && TrimRight(s)[0] == s[0]
    decreases |s|
  {
    if s != "" && IsSpace(s[|s| - 1]) {
      TrimRightEnds(s[..|s| - 1]);
    }
  }

  lemma TrimmedEnds(s: string)
    ensures var t := TrimRight(TrimLeft(s)); t != "" ==> !IsSpace(t[0]) && !IsSpace(t[|t| - 1])
  {
    TrimLeftEnds(s);
    TrimRightEnds(TrimLeft(s));
  }

  method SuggestTightening(suppressions: seq<Suppression>, rule: string, maxSamples: int, minLength: int)
    returns (suggestion: string)
    ensures var samples := Samples(suppressions, rule, maxSamples);
            && (if rule == "" || maxSamples < 2 || |samples| < 2 then suggestion == ""
                else exists chain ::
                  IsFold(samples, minLength, chain) && suggestion == Verdict(chain[|chain| - 1], minLength))
            && (suggestion != "" ==> FitsAll(samples, minLength, suggestion))
  {
    if rule == "" || maxSamples < 2 {
      return "";
    }
    var samples := CollectSamples(suppressions, rule, maxSamples);
    if |samples| < 2 {
      return "";
    }
    var candidate := samples[0];
    ghost var chain := [candidate];
    var i := 1;
    while i < |samples|
      invariant 1 <= i == |chain| <= |samples| && candidate == chain[i - 1]
      invariant chain[0] == samples[0]
      invariant forall k | 1 <= k < i :: IsLongestCommon(chain[k - 1], samples[k], chain[k]) && |chain[k]| >= minLength
    {
      candidate := LongestCommonSubstring(candidate, samples[i]);
      chain := chain + [candidate];
      if |candidate| < minLength {
        assert IsFold(samples, minLength, chain) && Verdict(chain[|chain| - 1], minLength) == "";
        return "";
      }
      i := i + 1;
    }
    var trimmed := TrimRight(TrimLeft(candidate));
    suggestion := if |trimmed| < minLength || !LooksStructural(trimmed) then "" else trimmed;
    assert IsFold(samples, minLength, chain) && suggestion == Verdict(chain[|chain| - 1], minLength);
    SuggestionFitsEverySample(samples, minLength, chain);
  }
}
