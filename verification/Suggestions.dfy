/** When a tightening is suggested and what it is, and from which lines. */
module Suggestions {
  import opened Chars
  import opened Suppressions
  import opened Tightening

  // The text without the white space around it.
  predicate Core(text: string, core: string) {
    && (exists a, b :: 0 <= a <= b <= |text| && core == text[a..b] && Blank(text[..a]) && Blank(text[b..]))
    && (core != "" ==> !IsSpace(core[0]) && !IsSpace(core[|core| - 1]))
  }

  // A blank, a bracket, a separator, a quote or an angle.
  predicate IsBoundary(c: char) {
    || IsSpace(c) || c == '(' || c == ')' || c == '{' || c == '}' || c == '[' || c == ']' || c == ';' || c == ','
    || c == '"' || c == '\'' || c == '<' || c == '>'
  }

  predicate HasBoundary(text: string) {
    exists k :: 0 <= k < |text| && IsBoundary(text[k])
  }

  lemma {:induction false} LeftIs(s: string) returns (a: nat)
    ensures a <= |s| && TrimLeft(s) == s[a..] && Blank(s[..a])
    decreases |s|
  {
    if s != "" && IsSpace(s[0]) {
      a := LeftIs(s[1..]);
      a := a + 1;
      assert s[a..] == s[1..][a - 1..];
      assert forall k | 1 <= k < a :: s[k] == s[1..][..a - 1][k - 1];
    } else {
      a := 0;
    }
  }

  lemma {:induction false} RightIs(s: string) returns (b: nat)
    ensures b <= |s| && TrimRight(s) == s[..b] && Blank(s[b..])
    decreases |s|
  {
    if s != "" && IsSpace(s[|s| - 1]) {
      var front := s[..|s| - 1];
      b := RightIs(front);
      assert front[..b] == s[..b];
      assert forall k | b <= k < |front| :: s[k] == front[b..][k - b];
    } else {
      b := |s|;
    }
  }

  lemma TrimIsCore(text: string)
    ensures Core(text, TrimRight(TrimLeft(text)))
  {
    var a := LeftIs(text);
    var n := RightIs(text[a..]);
    TrimmedEnds(text);
    var b := a + n;
    assert text[a..][..n] == text[a..b] && text[a..][n..] == text[b..];
  }

  // At the end of the fold a suggestion is made if no link fell short, and what
  // is left of the last one without the white space around it is long enough
  // and has a boundary in it; then it is that.
  lemma SuggestionTells(samples: seq<string>, minLength: int, chain: seq<string>) returns (core: string)
    requires |samples| >= 2 && IsFold(samples, minLength, chain)
    ensures var last := chain[|chain| - 1];
            var suggestion := Verdict(last, minLength);
            && Core(last, core)
            && (suggestion != "" <==> |last| >= minLength && |core| >= minLength && HasBoundary(core))
            && (suggestion != "" ==> suggestion == core && |chain| == |samples|)
  {
    var last := chain[|chain| - 1];
    core := TrimRight(TrimLeft(last));
    TrimIsCore(last);
    forall c: char ensures IsStructural(c) <==> IsBoundary(c) {
      BoundaryIs(c);
    }
  }

  lemma BoundaryIs(c: char)
    ensures IsStructural(c) <==> IsBoundary(c)
  {
  }

  // The samples: the lines of the rule's suppressions that have one, newest
  // first, as many as are asked for.
  lemma SamplesTell(list: seq<Suppression>, r: Suppression, rule: string, n: nat)
    ensures Samples([], rule, n) == []
    ensures Samples(list + [r], rule, n)
         == if n > 0 && r.rule == rule && |r.line| > 0 then [r.line] + Samples(list, rule, n - 1)
            else Samples(list, rule, n)
  {
    assert (list + [r])[..|list|] == list;
    var lines := LinesOf(list, rule);
    if Counts(rule, r) {
      assert LinesOf(list + [r], rule) == [r.line] + lines;
      if n > 0 && n < |lines| + 1 {
        assert ([r.line] + lines)[..n] == [r.line] + lines[..n - 1];
      }
    } else {
      assert LinesOf(list + [r], rule) == lines;
    }
  }
}
