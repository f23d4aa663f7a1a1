/** What is reported when a text is not found: the one line that reads the same
    but for its spacing, or else but for its punctuation as well, and nothing
    when several lines do; the text of several lines is looked for across hard
    line ends. */
module NearMiss {
  import opened Text

  predicate IsBlank(c: char) {
    c == ' ' || c == '\t'
  }

  // Hyphen, en dash, em dash.
  predicate IsDash(c: char) {
    c == '-' || c == '\U{2013}' || c == '\U{2014}'
  }

  function Last(s: string): char
    requires s != ""
  {
    s[|s| - 1]
  }

  function Front(s: string): string
    requires s != ""
  {
    s[..|s| - 1]
  }

  // ------------------------------------------------------------ specification

  // What is out, and whether a blank is owed before the next character.
  datatype Spaced = Spaced(out: string, pending: bool)

  function SpacedStep(w: Spaced, c: char): Spaced {
    if IsBlank(c) then Spaced(w.out, w.out != "")
    else Spaced((if w.pending then w.out + " " else w.out) + [c], false)
  }

  function SpacedOf(s: string): Spaced {
    if s == "" then Spaced("", false) else SpacedStep(SpacedOf(Front(s)), Last(s))
  }

  // Runs of blanks become one, outer ones go.
  function WsNormalised(s: string): string {
    SpacedOf(s).out
  }

  // What a character that is no dash folds to.
  function Plain(c: char): string {
    if c == '\U{2018}' || c == '\U{2019}' then "'"
    else if c == '\U{201C}' || c == '\U{201D}' then "\""
    else if c == '\U{2026}' then "..."
    else [c]
  }

  function FoldStep(out: string, c: char): string {
    if IsDash(c) then if out != "" && Last(out) == '-' then out else out + "-"
    else out + Plain(c)
  }

  // Runs of dashes become one hyphen; curly quotes straight; ellipsis dots.
  function PunctFolded(s: string): string {
    if s == "" then "" else FoldStep(PunctFolded(Front(s)), Last(s))
  }

  function Folded(s: string): string {
    WsNormalised(PunctFolded(s))
  }

  // ------------------------------------------------------------------ the loops

  method NormaliseSpaces(s: string) returns (out: string)
    ensures out == WsNormalised(s)
  {
    out := "";
    var pendingSpace := false;
    var i := 0;
    while i < |s|
      invariant 0 <= i <= |s| && Spaced(out, pendingSpace) == SpacedOf(s[..i])
    {
      assert Front(s[..i + 1]) == s[..i] && Last(s[..i + 1]) == s[i];
      if IsBlank(s[i]) {
        pendingSpace := out != "";
      } else {
        if pendingSpace {
          out := out + " ";
          pendingSpace := false;
        }
        out := out + [s[i]];
      }
      i := i + 1;
    }
    assert s[..i] == s;
  }

  method FoldPunctuation(s: string) returns (out: string)
    ensures out == PunctFolded(s)
  {
    out := "";
    var i := 0;
    while i < |s|
      invariant 0 <= i <= |s| && out == PunctFolded(s[..i])
    {
      assert Front(s[..i + 1]) == s[..i] && Last(s[..i + 1]) == s[i];
      var c := s[i];
      if IsDash(c) {
        if out == "" || out[|out| - 1] != '-' {
          out := out + "-";
        }
      } else if c == '\U{2018}' || c == '\U{2019}' {
        out := out + "'";
      } else if c == '\U{201C}' || c == '\U{201D}' {
        out := out + "\"";
      } else if c == '\U{2026}' {
        out := out + "...";
      } else {
        out := out + [c];
      }
      i := i + 1;
    }
    assert s[..i] == s;
  }

  // --------------------------------------------------------- how they are built

  lemma SpacedAppend(s: string, c: char)
    ensures SpacedOf(s + [c]) == SpacedStep(SpacedOf(s), c)
  {
    assert Front(s + [c]) == s;
  }

  lemma FoldAppend(s: string, c: char)
    ensures PunctFolded(s + [c]) == FoldStep(PunctFolded(s), c)
  {
    assert Front(s + [c]) == s;
  }

  // Without a blank owed, the last character out is the last one read.
  lemma {:induction false} SpacedTail(s: string)
    ensures var w := SpacedOf(s);
            && (w.pending ==> w.out != "")
            && (!w.pending && w.out != "" ==> s != "" && Last(w.out) == Last(s))
  {
    if s != "" {
      SpacedTail(Front(s));
    }
  }

  // A folded text ends in a hyphen exactly when a dash was read last.
  lemma {:induction false} FoldTail(s: string)
    ensures var q := PunctFolded(s);
            && (q == "" <==> s == "")
            && (s != "" ==> (Last(q) == '-' <==> IsDash(Last(s))))
  {
    if s != "" {
      FoldTail(Front(s));
    }
  }

  lemma SpacedDot(s: string, head: string)
    requires head == if SpacedOf(s).pending then SpacedOf(s).out + " " else SpacedOf(s).out
    ensures SpacedOf(s + ['.']) == Spaced(head + ['.'], false)
  {
    SpacedAppend(s, '.');
  }

  lemma SpacedDots(s: string)
    ensures SpacedOf(s + "...")
         == Spaced((if SpacedOf(s).pending then SpacedOf(s).out + " " else SpacedOf(s).out) + "...", false)
  {
    var head := if SpacedOf(s).pending then SpacedOf(s).out + " " else SpacedOf(s).out;
    var s1, s2 := s + ['.'], s + ['.'] + ['.'];
    SpacedDot(s, head);
    SpacedDot(s1, head + ['.']);
    SpacedDot(s2, head + ['.'] + ['.']);
    assert s + "..." == s2 + ['.'] && head + ['.'] + ['.'] + ['.'] == head + "...";
  }

  lemma SpacedPlain(s: string, c: char)
    requires !IsDash(c) && !IsBlank(c)
    ensures SpacedOf(s + Plain(c))
         == Spaced((if SpacedOf(s).pending then SpacedOf(s).out + " " else SpacedOf(s).out) + Plain(c), false)
  {
    if Plain(c) == "..." {
      SpacedDots(s);
    } else {
      SpacedAppend(s, Plain(c)[0]);
      assert Plain(c) == [Plain(c)[0]];
    }
  }

  // -------------------------------------------------------------- main results

  lemma FoldDots(q: string)
    ensures PunctFolded(q + "...") == PunctFolded(q) + "..."
  {
    var p := PunctFolded(q);
    var q1, q2 := q + ['.'], q + ['.'] + ['.'];
    assert PunctFolded(q1) == p + ['.'] by { FoldAppend(q, '.'); }
    assert PunctFolded(q2) == p + ['.'] + ['.'] by { FoldAppend(q1, '.'); }
    assert PunctFolded(q2 + ['.']) == p + ['.'] + ['.'] + ['.'] by { FoldAppend(q2, '.'); }
    assert q + "..." == q2 + ['.'];
    assert p + "..." == p + ['.'] + ['.'] + ['.'];
  }

  lemma FoldPlain(q: string, c: char)
    requires !IsDash(c)
    ensures PunctFolded(q + Plain(c)) == PunctFolded(q) + Plain(c)
  {
    if c == '\U{2026}' {
      FoldDots(q);
    } else {
      var d := Plain(c)[0];
      assert Plain(c) == [d] == Plain(d) && !IsDash(d);
      FoldAppend(q, d);
    }
  }

  // The two forms agree on what was read so far, blank owed and all.
  ghost predicate Commutes(s: string) {
    SpacedOf(PunctFolded(s)) == Spaced(PunctFolded(SpacedOf(s).out), SpacedOf(s).pending)
  }

  lemma CommutesAs(s: string, q: string, w: Spaced)
    requires q == PunctFolded(s) && w == SpacedOf(s)
    requires SpacedOf(q) == Spaced(PunctFolded(w.out), w.pending)
    ensures Commutes(s)
  {
  }

  lemma AppendBlank(s: string, c: char)
    requires IsBlank(c)
    ensures SpacedOf(s + [c]) == Spaced(SpacedOf(s).out, SpacedOf(s).out != "")
    ensures PunctFolded(s + [c]) == PunctFolded(s) + [c]
  {
    assert SpacedOf(s + [c]) == Spaced(SpacedOf(s).out, SpacedOf(s).out != "") by { SpacedAppend(s, c); }
    assert PunctFolded(s + [c]) == PunctFolded(s) + [c] by { FoldAppend(s, c); }
  }

  lemma FoldOfEmpty(s: string)
    ensures PunctFolded(s) == "" <==> s == ""
  {
    FoldTail(s);
  }

  lemma CommuteBlank(t: string, c: char)
    requires Commutes(t) && IsBlank(c)
    ensures Commutes(t + [c])
  {
    var w, q := SpacedOf(t), PunctFolded(t);
    FoldOfEmpty(w.out);
    AppendBlank(t, c);
    AppendBlank(q, c);
    CommutesAs(t + [c], q + [c], Spaced(w.out, w.out != ""));
  }

  // The spaced text with the owed blank paid.
  function Paid(w: Spaced): string {
    if w.pending then w.out + " " else w.out
  }

  lemma PaidFolds(w: Spaced)
    ensures PunctFolded(Paid(w)) == Paid(Spaced(PunctFolded(w.out), w.pending))
  {
    FoldAppend(w.out, ' ');
  }

  lemma CommutePlain(t: string, c: char)
    requires Commutes(t) && !IsDash(c) && !IsBlank(c)
    ensures Commutes(t + [c])
  {
    var w, q := SpacedOf(t), PunctFolded(t);
    assert SpacedOf(t + [c]) == Spaced(Paid(w) + [c], false) by { SpacedAppend(t, c); }
    assert PunctFolded(t + [c]) == q + Plain(c) by { FoldAppend(t, c); }
    assert SpacedOf(q + Plain(c)) == Spaced(Paid(SpacedOf(q)) + Plain(c), false) by { SpacedPlain(q, c); }
    assert PunctFolded(Paid(w) + [c]) == PunctFolded(Paid(w)) + Plain(c) by { FoldAppend(Paid(w), c); }
    PaidFolds(w);
    CommutesAs(t + [c], q + Plain(c), Spaced(Paid(w) + [c], false));
  }

  // A dash joins a run on both sides, or starts one on both.
  lemma CommuteDash(t: string, c: char)
    requires Commutes(t) && IsDash(c)
    ensures Commutes(t + [c])
  {
    var w, q := SpacedOf(t), PunctFolded(t);
    var r := PunctFolded(Paid(w));
    assert SpacedOf(t + [c]) == Spaced(Paid(w) + [c], false) by { SpacedAppend(t, c); }
    assert PunctFolded(t + [c]) == FoldStep(q, c) by { FoldAppend(t, c); }
    assert PunctFolded(Paid(w) + [c]) == FoldStep(r, c) by { FoldAppend(Paid(w), c); }
    assert SpacedOf(q + "-") == Spaced(Paid(SpacedOf(q)) + "-", false) by { SpacedAppend(q, '-'); }
    PaidFolds(w);
    DashRuns(t);
  }

  // The folded text ends in a hyphen exactly when the spaced one will.
  lemma DashRuns(t: string)
    ensures var w, q := SpacedOf(t), PunctFolded(t);
            var r := PunctFolded(Paid(w));
            && ((q != "" && Last(q) == '-') <==> (r != "" && Last(r) == '-'))
            && (q != "" && Last(q) == '-' ==> !w.pending)
  {
    var w := SpacedOf(t);
    SpacedTail(t);
    FoldTail(t);
    FoldTail(Paid(w));
    PendingIsBlank(t);
  }

  // A blank is owed only if a blank was read last.
  lemma PendingIsBlank(t: string)
    ensures SpacedOf(t).pending ==> t != "" && IsBlank(Last(t))
    ensures !SpacedOf(t).pending && SpacedOf(t).out == "" && t != "" ==> IsBlank(Last(t))
  {
  }

  // Folding first or spacing first: the state of the spacing is the folded
  // state.
  lemma {:induction false} FoldsAndSpacesCommute(s: string)
    ensures Commutes(s)
  {
    if s != "" {
      var t, c := Front(s), Last(s);
      assert s == t + [c];
      FoldsAndSpacesCommute(t);
      if IsBlank(c) {
        CommuteBlank(t, c);
      } else if IsDash(c) {
        CommuteDash(t, c);
      } else {
        CommutePlain(t, c);
      }
    }
  }

  lemma NormalFormsCommute(s: string)
    ensures WsNormalised(PunctFolded(s)) == PunctFolded(WsNormalised(s))
  {
    FoldsAndSpacesCommute(s);
  }

  lemma {:induction false} SpacingIsIdempotent(s: string)
    ensures SpacedOf(WsNormalised(s)) == Spaced(WsNormalised(s), false)
    ensures WsNormalised(WsNormalised(s)) == WsNormalised(s)
  {
    if s != "" {
      var w, c := SpacedOf(Front(s)), Last(s);
      SpacingIsIdempotent(Front(s));
      SpacedTail(Front(s));
      if !IsBlank(c) {
        SpacedAppend(w.out, ' ');
        SpacedAppend(w.out + " ", c);
        SpacedAppend(w.out, c);
      }
    }
  }

  lemma {:induction false} FoldingIsIdempotent(s: string)
    ensures PunctFolded(PunctFolded(s)) == PunctFolded(s)
  {
    if s != "" {
      var q, c := PunctFolded(Front(s)), Last(s);
      FoldingIsIdempotent(Front(s));
      FoldTail(Front(s));
      if IsDash(c) {
        FoldAppend(q, '-');
      } else {
        FoldPlain(q, c);
      }
    }
  }

  lemma FoldedIsIdempotent(s: string)
    ensures Folded(Folded(s)) == Folded(s)
  {
    var q := PunctFolded(s);
    NormalFormsCommute(q);
    NormalFormsCommute(s);
    FoldingIsIdempotent(s);
    assert PunctFolded(Folded(s)) == WsNormalised(PunctFolded(q)) == Folded(s) by {
      NormalFormsCommute(q);
    }
    SpacingIsIdempotent(q);
  }

  // The fold is coarser: lines equal under spacing are equal under it.
  lemma SpacingImpliesFold(a: string, b: string)
    requires WsNormalised(a) == WsNormalised(b)
    ensures Folded(a) == Folded(b)
  {
    NormalFormsCommute(a);
    NormalFormsCommute(b);
  }

  // ------------------------------------------------------------- unique lines

  ghost predicate Matching(lines: seq<string>, norm: string -> string, needle: string, k: int) {
    0 <= k < |lines| && norm(lines[k]) == needle
  }

  ghost predicate Unique(lines: seq<string>, norm: string -> string, needle: string, line: int) {
    Matching(lines, norm, needle, line - 1) && forall k :: Matching(lines, norm, needle, k) ==> k == line - 1
  }

  ghost predicate Several(lines: seq<string>, norm: string -> string, needle: string) {
    exists j, k :: j != k && Matching(lines, norm, needle, j) && Matching(lines, norm, needle, k)
  }

  // The one matching line, counted from 1; -1 for none and for several.
  method UniqueLineMatching(lines: seq<string>, norm: string -> string, needle: string) returns (hit: int)
    ensures hit == -1 || Unique(lines, norm, needle, hit)
    ensures hit == -1 ==> (forall k :: !Matching(lines, norm, needle, k)) || Several(lines, norm, needle)
  {
    hit := -1;
    var i := 0;
    while i < |lines|
      invariant 0 <= i <= |lines|
      invariant hit == -1 ==> forall k | 0 <= k < i :: norm(lines[k]) != needle
      invariant hit != -1 ==> 1 <= hit <= i && norm(lines[hit - 1]) == needle
                              && forall k | 0 <= k < i && k != hit - 1 :: norm(lines[k]) != needle
    {
      if norm(lines[i]) == needle {
        if hit >= 0 {
          assert Matching(lines, norm, needle, hit - 1) && Matching(lines, norm, needle, i);
          return -1;
        }
        hit := i + 1;
      }
      i := i + 1;
    }
    if hit != -1 {
      assert Matching(lines, norm, needle, hit - 1);
    }
  }

  datatype Kind = Nothing | Whitespace | Punctuation | Wrapped

  // The line named, counted from 1, its text, and how it differed.
  datatype Report = Report(line: int, text: string, kind: Kind)

  const NO_REPORT := Report(-1, "", Nothing)

  ghost predicate NoneUnique(lines: seq<string>, norm: string -> string, needle: string) {
    forall line :: !Unique(lines, norm, needle, line)
  }

  // Two lines that agree with the text but for spacing stay two under the
  // fold: the second pass never names one of them.
  lemma AmbiguousStaysAmbiguous(lines: seq<string>, old_: string)
    requires Several(lines, WsNormalised, WsNormalised(old_))
    ensures Several(lines, Folded, Folded(old_))
    ensures NoneUnique(lines, Folded, Folded(old_))
  {
    var j, k :| j != k && Matching(lines, WsNormalised, WsNormalised(old_), j)
        && Matching(lines, WsNormalised, WsNormalised(old_), k);
    SpacingImpliesFold(lines[j], old_);
    SpacingImpliesFold(lines[k], old_);
    assert Matching(lines, Folded, Folded(old_), j) && Matching(lines, Folded, Folded(old_), k);
  }

  // The only line that matches, or -1.
  ghost function OnlyLine(lines: seq<string>, norm: string -> string, needle: string): int {
    if NoneUnique(lines, norm, needle) then -1 else var line :| Unique(lines, norm, needle, line); line
  }

  function ReportLine(lines: seq<string>, line: int, kind: Kind): Report {
    if 1 <= line <= |lines| then Report(line, lines[line - 1], kind) else NO_REPORT
  }

  // The near miss of a text that was not found. `hits` are the places where a
  // text of several lines stands across other hard wraps, at most two.
  ghost function NearMissIn(s: string, old_: string, hits: seq<nat>): Report
    requires forall k | 0 <= k < |hits| :: hits[k] <= |s|
  {
    if '\n' in old_ then
      if |hits| == 1 then Report(LineAt(s, hits[0]), LineTextAt(s, hits[0]), Wrapped) else NO_REPORT
    else if WsNormalised(old_) == "" then NO_REPORT
    else
      var bySpaces := OnlyLine(Split(s), WsNormalised, WsNormalised(old_));
      if bySpaces >= 1 then ReportLine(Split(s), bySpaces, Whitespace)
      else ReportLine(Split(s), OnlyLine(Split(s), Folded, Folded(old_)), Punctuation)
  }

  lemma OnlyLineIs(lines: seq<string>, norm: string -> string, needle: string)
    ensures var line := OnlyLine(lines, norm, needle);
            if NoneUnique(lines, norm, needle) then line == -1
            else 1 <= line <= |lines| && Unique(lines, norm, needle, line)
  {
  }

  lemma UniqueIsOnly(lines: seq<string>, norm: string -> string, needle: string, hit: int)
    requires hit == -1 || Unique(lines, norm, needle, hit)
    requires hit == -1 ==> (forall k :: !Matching(lines, norm, needle, k)) || Several(lines, norm, needle)
    ensures hit == OnlyLine(lines, norm, needle)
  {
    if hit == -1 {
      forall line ensures !Unique(lines, norm, needle, line) {
        if Several(lines, norm, needle) {
          var j, k :| j != k && Matching(lines, norm, needle, j) && Matching(lines, norm, needle, k);
        }
      }
    }
  }

  method FindWrapped(s: string, hits: seq<nat>) returns (r: Report)
    requires forall k | 0 <= k < |hits| :: hits[k] <= |s|
    ensures r == if |hits| == 1 then Report(LineAt(s, hits[0]), LineTextAt(s, hits[0]), Wrapped) else NO_REPORT
  {
    if |hits| != 1 {
      return NO_REPORT;
    }
    var line := CountLinesTo(s, 0, 1, hits[0]);
    var ls, le := LineBounds(s, hits[0]);
    r := Report(line, s[ls..le], Wrapped);
  }

  method FindNearMiss(s: string, old_: string, find: (string, string) -> seq<nat>) returns (r: Report)
    requires forall k | 0 <= k < |find(s, old_)| :: find(s, old_)[k] <= |s|
    ensures r == NearMissIn(s, old_, find(s, old_))
  {
    if '\n' in old_ {
      r := FindWrapped(s, find(s, old_));
      return;
    }
    var needle := NormaliseSpaces(old_);
    if needle == "" {
      return NO_REPORT;
    }
    var lines := Split(s);
    var line := UniqueLineMatching(lines, WsNormalised, needle);
    UniqueIsOnly(lines, WsNormalised, needle, line);
    if line >= 0 {
      return ReportLine(lines, line, Whitespace);
    }
    var folded := FoldPunctuation(old_);
    folded := NormaliseSpaces(folded);
    line := UniqueLineMatching(lines, Folded, folded);
    UniqueIsOnly(lines, Folded, folded, line);
    r := ReportLine(lines, line, Punctuation);
  }

  // For a text of one line: a line is named if and only if it is the only one
  // under spacing, or none is alike under spacing and it is the only one under
  // the fold. Several alike under spacing never become one.
  lemma NearMissIsUnique(s: string, old_: string, hits: seq<nat>)
    requires '\n' !in old_ && WsNormalised(old_) != "" && forall k | 0 <= k < |hits| :: hits[k] <= |s|
    ensures var r := NearMissIn(s, old_, hits);
            var lines := Split(s);
            && (r.kind == Nothing
               <==> NoneUnique(lines, WsNormalised, WsNormalised(old_)) && NoneUnique(lines, Folded, Folded(old_)))
            && (r.kind == Whitespace ==> Unique(lines, WsNormalised, WsNormalised(old_), r.line))
            && (r.kind == Punctuation ==> Unique(lines, Folded, Folded(old_), r.line))
            && (r.kind == Punctuation ==> forall k :: !Matching(lines, WsNormalised, WsNormalised(old_), k))
            && (r.kind != Nothing ==> 1 <= r.line <= |lines| && r.text == lines[r.line - 1]) && r.kind != Wrapped
  {
    var lines, needle := Split(s), WsNormalised(old_);
    OnlyLineIs(lines, WsNormalised, needle);
    OnlyLineIs(lines, Folded, Folded(old_));
    if Several(lines, WsNormalised, needle) {
      AmbiguousStaysAmbiguous(lines, old_);
    } else {
      OneOrNone(lines, WsNormalised, needle);
    }
  }

  lemma OneOrNone(lines: seq<string>, norm: string -> string, needle: string)
    requires !Several(lines, norm, needle)
    ensures OnlyLine(lines, norm, needle) == -1 ==> forall k :: !Matching(lines, norm, needle, k)
  {
    if k :| Matching(lines, norm, needle, k) {
      assert Unique(lines, norm, needle, k + 1);
      OnlyLineIs(lines, norm, needle);
    }
  }
}
