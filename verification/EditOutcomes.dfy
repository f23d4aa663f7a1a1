/** What an edit comes to: which outcome, told by where the text occurs; what
    is left of the file, told by the pieces between the occurrences or by the
    lines of the range; and which lines a refusal names, told by the lines of
    the file as it is split. */
module EditOutcomes {
  import opened ApplyEdits
  import opened NearMiss
  import opened Text

  // ---------------------------------------------------------- whole-text edits

  // The text stands at k.
  predicate Stands(s: string, t: string, k: nat) {
    k + |t| <= |s| && s[k..k + |t|] == t
  }

  ghost predicate OneStands(s: string, t: string, k: nat) {
    Stands(s, t, k) && forall j: nat | Stands(s, t, j) :: j == k
  }

  lemma FoundAreAll(s: string, t: string)
    ensures Occurrences(s, t, 0) == [] <==> forall k: nat :: !Stands(s, t, k)
    ensures |Occurrences(s, t, 0)| == 1 <==> exists k: nat :: OneStands(s, t, k)
    ensures |Occurrences(s, t, 0)| == 1 ==> OneStands(s, t, Occurrences(s, t, 0)[0])
    ensures Occurrences(s, t, 0) != [] ==> Stands(s, t, Occurrences(s, t, 0)[0])
  {
    var found := Occurrences(s, t, 0);
    OccurrencesAre(s, t, 0);
    forall k: nat ensures Stands(s, t, k) <==> k in found {
    }
    if |found| > 1 {
      OccurrencesAscend(s, t, 0, 0, 1);
      assert found[0] in found && found[1] in found;
    }
    if |found| == 1 {
      assert OneStands(s, t, found[0]);
    }
  }

  // Without the wrapped match: an empty text and one that stands nowhere are
  // not found, several that are not all replaced are ambiguous, and otherwise
  // the edit is made.
  lemma OutcomeTells(w: Wrap, s: string, old_: string, new_: string, all: bool)
    requires Places(w, s, old_)
    ensures var r := Applying(w, s, old_, new_, all, false);
            var some := old_ != "" && exists k: nat :: Stands(s, old_, k);
            var one := exists k: nat :: OneStands(s, old_, k);
            && (r.Applied? <==> some && (all || one))
            && (r.Skipped? && r.reason == NotFound <==> !some)
            && (r.Skipped? && r.reason == Ambiguous <==> some && !all && !one)
            && (r.Applied? ==> !r.wrapped)
  {
    FoundAreAll(s, old_);
  }

  // One replacement: the text before it, the new text, the text behind.
  lemma SingleTells(w: Wrap, s: string, old_: string, new_: string, wrapped: bool, k: nat)
    requires Places(w, s, old_) && old_ != "" && OneStands(s, old_, k)
    ensures Applying(w, s, old_, new_, false, wrapped)
         == Outcome.Applied(s[..k] + new_ + s[k + |old_|..], 1, false)
  {
    FoundAreAll(s, old_);
    assert |Occurrences(s, old_, 0)| == 1;
  }

  // Pieces with a separator between each two.
  function Between(pieces: seq<string>, t: string): string {
    if pieces == [] then ""
    else if |pieces| == 1 then pieces[0]
    else pieces[0] + t + Between(pieces[1..], t)
  }

  // The pieces are cut at the first text that stands there, then at the first
  // behind it, and so on: no piece holds it before its end.
  ghost predicate CutAt(pieces: seq<string>, t: string) {
    && pieces != []
    && (forall i | 0 <= i < |pieces| - 1 :: EndsAtFirst(pieces[i], t))
    && Nowhere(pieces[|pieces| - 1], t)
  }

  ghost predicate Nowhere(s: string, t: string) {
    forall k: nat :: !Stands(s, t, k)
  }

  // The text stands behind the piece, and nowhere before.
  ghost predicate EndsAtFirst(piece: string, t: string) {
    FirstStands(piece + t, t, |piece|)
  }

  ghost predicate FirstStands(s: string, t: string, k: nat) {
    Stands(s, t, k) && forall j: nat | j < k :: !Stands(s, t, j)
  }

  lemma {:induction false} FirstIs(s: string, t: string, from: nat)
    requires from <= |s|
    ensures var k := IndexOf(s, t, from);
            if k < 0 then forall j: nat | from <= j :: !Stands(s, t, j)
            else Stands(s, t, k) && forall j: nat | from <= j < k :: !Stands(s, t, j)
    decreases |s| - from
  {
    if from + |t| <= |s| && !OccursAt(s, t, from) {
      FirstIs(s, t, from + 1);
    }
  }

  lemma StandsWithin(s: string, t: string, from: nat, k: nat, j: nat)
    requires from <= k && Stands(s, t, k) && j <= k - from
    ensures Stands(s[from..k] + t, t, j) <==> Stands(s, t, from + j)
  {
    var u := s[from..k] + t;
    assert s[from..k + |t|] == s[from..k] + s[k..k + |t|] == u;
    SliceOfSlice(s, from, k + |t|, j, j + |t|);
  }

  lemma SliceOfSlice(s: string, from: nat, to: nat, a: nat, b: nat)
    requires from <= to <= |s| && a <= b <= to - from
    ensures s[from..to][a..b] == s[from + a..from + b]
  {
    var u := s[from..to];
    assert forall m | 0 <= m < b - a :: u[a..b][m] == u[a + m] == s[from + a + m];
  }

  lemma FirstPiece(s: string, t: string, from: nat, k: nat)
    requires from <= k && Stands(s, t, k) && forall j: nat | from <= j < k :: !Stands(s, t, j)
    ensures EndsAtFirst(s[from..k], t)
  {
    StandsWithin(s, t, from, k, k - from);
    forall j: nat | j < k - from ensures !Stands(s[from..k] + t, t, j) {
      StandsWithin(s, t, from, k, j);
      assert !Stands(s, t, from + j);
    }
  }

  lemma LastPiece(s: string, t: string, from: nat)
    requires from <= |s| && forall j: nat | from <= j :: !Stands(s, t, j)
    ensures Nowhere(s[from..], t)
  {
    forall k: nat ensures !Stands(s[from..], t, k) {
      if k + |t| <= |s[from..]| {
        assert s[from..][k..k + |t|] == s[from + k..from + k + |t|];
        assert !Stands(s, t, from + k);
      }
    }
  }

  // Replacing all: the text is cut at the old text, from the left, and joined
  // with the new one; the number reported is the number of cuts.
  lemma {:induction false} ReplacedPieces(s: string, old_: string, new_: string, from: nat)
    returns (pieces: seq<string>)
    requires old_ != "" && from <= |s|
    ensures CutAt(pieces, old_) && |pieces| == Replacements(s, old_, from) + 1
    ensures Between(pieces, old_) == s[from..] && Between(pieces, new_) == ReplaceAll(s, old_, new_, from)
    decreases |s| - from
  {
    var k := IndexOf(s, old_, from);
    FirstIs(s, old_, from);
    if k < 0 {
      pieces := [s[from..]];
      LastPiece(s, old_, from);
    } else {
      var rest := ReplacedPieces(s, old_, new_, k + |old_|);
      pieces := [s[from..k]] + rest;
      PiecesCut(s, old_, from, k, rest);
      PiecesJoined(s, old_, from, k, rest);
      PiecesReplaced(s, old_, new_, from, k, rest);
    }
  }

  lemma PiecesCut(s: string, t: string, from: nat, k: nat, rest: seq<string>)
    requires from <= |s| && k == IndexOf(s, t, from) && CutAt(rest, t)
    ensures CutAt([s[from..k]] + rest, t)
  {
    FirstIs(s, t, from);
    FirstPiece(s, t, from, k);
    CutGrows(s[from..k], rest, t);
  }

  lemma PiecesJoined(s: string, t: string, from: nat, k: nat, rest: seq<string>)
    requires from <= k && k + |t| <= |s| && s[k..k + |t|] == t
    requires rest != [] && Between(rest, t) == s[k + |t|..]
    ensures Between([s[from..k]] + rest, t) == s[from..]
  {
    PieceJoins(s[from..k], rest, t, s[k + |t|..]);
    Rejoined(s, t, from, k);
  }

  lemma PiecesReplaced(s: string, old_: string, new_: string, from: nat, k: nat, rest: seq<string>)
    requires old_ != "" && from <= |s| && k == IndexOf(s, old_, from)
    requires rest != [] && Between(rest, new_) == ReplaceAll(s, old_, new_, k + |old_|)
    ensures Between([s[from..k]] + rest, new_) == ReplaceAll(s, old_, new_, from)
  {
    var more := Between(rest, new_);
    ReplaceFirst(s, old_, new_, from, k, more);
    PieceJoins(s[from..k], rest, new_, more);
  }

  lemma PieceJoins(piece: string, rest: seq<string>, t: string, more: string)
    requires rest != [] && more == Between(rest, t)
    ensures Between([piece] + rest, t) == piece + t + more
  {
    assert ([piece] + rest)[1..] == rest;
  }

  lemma CutGrows(piece: string, rest: seq<string>, t: string)
    requires CutAt(rest, t) && EndsAtFirst(piece, t)
    ensures CutAt([piece] + rest, t)
  {
    var pieces := [piece] + rest;
    assert forall i | 0 < i < |pieces| :: pieces[i] == rest[i - 1];
    assert pieces[|pieces| - 1] == rest[|rest| - 1];
    forall i | 0 <= i < |pieces| - 1 ensures EndsAtFirst(pieces[i], t) {
      if i > 0 {
        assert EndsAtFirst(rest[i - 1], t);
      }
    }
  }

  lemma AllTells(w: Wrap, s: string, old_: string, new_: string, wrapped: bool) returns (pieces: seq<string>)
    requires Places(w, s, old_) && old_ != "" && exists k: nat :: Stands(s, old_, k)
    ensures CutAt(pieces, old_) && Between(pieces, old_) == s
    ensures Applying(w, s, old_, new_, true, wrapped)
         == Outcome.Applied(Between(pieces, new_), |pieces| - 1, false)
  {
    FoundAreAll(s, old_);
    pieces := ReplacedPieces(s, old_, new_, 0);
    assert s[0..] == s;
  }

  // The wrapped match is taken when it was asked for, the text does not stand
  // as it is, and it is found once and can be patched; several are ambiguous.
  lemma WrappedTells(w: Wrap, s: string, old_: string, new_: string)
    requires Places(w, s, old_) && old_ != "" && forall k: nat :: !Stands(s, old_, k)
    ensures var r, p := Applying(w, s, old_, new_, false, true), w.patch(s, old_, new_);
            && (r.Applied? <==> p.hits == 1 && !p.structured)
            && (r.Applied? ==> r == Outcome.Applied(p.text, 1, true))
            && (r.Skipped? && r.reason == Ambiguous <==> p.hits > 1)
            && (r.Skipped? && r.reason == Ambiguous ==> r.count == p.hits)
            && (r.Skipped? && r.reason == NotFound <==> p.hits == 0 || (p.hits == 1 && p.structured))
  {
    FoundAreAll(s, old_);
  }

  // --------------------------------------------------- what an ambiguity shows

  lemma {:induction false} FirstLineAt(s: string, k: nat)
    requires k <= LineEnd(s, 0)
    ensures LineAt(s, k) == 1 && LineStart(s, k) == 0
  {
    if k > 0 {
      FirstLineAt(s, k - 1);
    }
  }

  lemma {:induction false} LaterLineAt(s: string, rest: string, e: nat, j: nat)
    requires e == LineEnd(s, 0) < |s| && rest == s[e + 1..] && j <= |rest|
    ensures LineAt(s, e + 1 + j) == 1 + LineAt(rest, j) && LineStart(s, e + 1 + j) == e + 1 + LineStart(rest, j)
  {
    if j == 0 {
      FirstLineAt(s, e);
    } else {
      LaterLineAt(s, rest, e, j - 1);
      assert s[e + 1 + (j - 1)] == rest[j - 1];
    }
  }

  lemma {:induction false} LaterLineEnd(s: string, rest: string, e: nat, j: nat)
    requires e < |s| && rest == s[e + 1..] && j <= |rest|
    ensures LineEnd(s, e + 1 + j) == e + 1 + LineEnd(rest, j)
    decreases |rest| - j
  {
    if j < |rest| && rest[j] != '\n' {
      LaterLineEnd(s, rest, e, j + 1);
    }
  }

  lemma {:induction false} SameLineEnd(s: string, from: nat, k: nat)
    requires from <= |s| && from <= k <= LineEnd(s, from)
    ensures LineEnd(s, k) == LineEnd(s, from)
    decreases k - from
  {
    if from < k {
      SameLineEnd(s, from + 1, k);
    }
  }

  lemma FirstText(s: string, k: nat)
    requires k <= LineEnd(s, 0)
    ensures LineAt(s, k) == 1 && LineTextAt(s, k) == Split(s)[0]
  {
    FirstLineAt(s, k);
    SameLineEnd(s, 0, k);
    assert s[0..LineEnd(s, 0)] == s[..LineEnd(s, 0)] && s[..|s|] == s;
  }

  predicate IsNth(lines: seq<string>, n: nat, text: string) {
    1 <= n <= |lines| && lines[n - 1] == text
  }

  lemma NthBehind(all: seq<string>, first: string, rest: seq<string>, n: nat, text: string, m: nat, same: string)
    requires all == [first] + rest && m == 1 + n && same == text
    requires IsNth(rest, n, text)
    ensures IsNth(all, m, same)
  {
  }

  lemma SplitFirst(s: string, rest: string, e: nat)
    requires e == LineEnd(s, 0) < |s| && rest == s[e + 1..]
    ensures Split(s) == [s[..e]] + Split(rest)
  {
  }

  // The line named for a place is the line of the split text it stands in.
  lemma {:induction false} LineOfPlace(s: string, k: nat)
    requires k <= |s|
    ensures IsNth(Split(s), LineAt(s, k), LineTextAt(s, k))
    decreases |s|
  {
    var e := LineEnd(s, 0);
    if k <= e {
      FirstPlace(s, k);
    } else {
      LineOfPlace(s[e + 1..], k - e - 1);
      LaterPlace(s, s[e + 1..], e, k);
    }
  }

  lemma FirstPlace(s: string, k: nat)
    requires k <= LineEnd(s, 0)
    ensures IsNth(Split(s), LineAt(s, k), LineTextAt(s, k))
  {
    FirstText(s, k);
  }

  lemma LaterPlace(s: string, rest: string, e: nat, k: nat)
    requires e == LineEnd(s, 0) < k <= |s| && rest == s[e + 1..]
    requires IsNth(Split(rest), LineAt(rest, k - e - 1), LineTextAt(rest, k - e - 1))
    ensures IsNth(Split(s), LineAt(s, k), LineTextAt(s, k))
  {
    var j := k - e - 1;
    SplitFirst(s, rest, e);
    LaterText(s, rest, e, j);
    NthBehind(Split(s), s[..e], Split(rest), LineAt(rest, j), LineTextAt(rest, j), LineAt(s, k), LineTextAt(s, k));
  }

  lemma LaterText(s: string, rest: string, e: nat, j: nat)
    requires e == LineEnd(s, 0) < |s| && rest == s[e + 1..] && j <= |rest|
    ensures LineAt(s, e + 1 + j) == 1 + LineAt(rest, j) && LineTextAt(s, e + 1 + j) == LineTextAt(rest, j)
  {
    LaterLineAt(s, rest, e, j);
    LaterLineEnd(s, rest, e, j);
    SliceOfRest(s, rest, e + 1, LineStart(rest, j), LineEnd(rest, j));
  }

  lemma SliceOfRest(s: string, rest: string, from: nat, a: nat, b: nat)
    requires from <= |s| && rest == s[from..] && a <= b <= |rest|
    ensures s[from + a..from + b] == rest[a..b]
  {
  }

  // An ambiguity shows the first ten places, in order, each by its line.
  lemma AmbiguityTells(w: Wrap, s: string, old_: string, new_: string, wrapped: bool)
    requires Places(w, s, old_) && old_ != ""
    requires |Occurrences(s, old_, 0)| > 1
    ensures var r := Applying(w, s, old_, new_, false, wrapped);
            var found := Occurrences(s, old_, 0);
            && r.Skipped? && r.reason == Ambiguous && r.count == |found|
            && |r.lines| == |r.texts| == (if |found| > 10 then 10 else |found|)
            && forall i | 0 <= i < |r.lines| :: Stands(s, old_, found[i]) && 1 <= r.lines[i] <= |Split(s)|
                 && r.lines[i] == LineAt(s, found[i]) && r.texts[i] == Split(s)[r.lines[i] - 1]
  {
    var found := Occurrences(s, old_, 0);
    OccurrencesAre(s, old_, 0);
    forall i | 0 <= i < |found| ensures OccursAt(s, old_, found[i]) {
      assert found[i] in found;
    }
    forall i | 0 <= i < |found| && i < 10 ensures found[i] <= |s| && 1 <= LineAt(s, found[i]) <= |Split(s)|
        && Split(s)[LineAt(s, found[i]) - 1] == LineTextAt(s, found[i]) {
      LineOfPlace(s, found[i]);
    }
  }

  // A text of several lines that is not found is reported where its only place
  // across other hard wraps is; one without words is never reported.
  lemma NearMissTells(s: string, old_: string, hits: seq<nat>)
    requires forall k | 0 <= k < |hits| :: hits[k] <= |s|
    requires (exists k :: 0 <= k < |old_| && old_[k] == '\n') || forall k | 0 <= k < |old_| :: old_[k] in " \t"
    ensures var r := NearMissIn(s, old_, hits);
            if |hits| == 1 && '\n' in old_
            then r.kind == Wrapped && r.line == LineAt(s, hits[0]) && 1 <= r.line <= |Split(s)|
                 && r.text == Split(s)[r.line - 1]
            else r == Report(-1, "", Nothing)
  {
    if |hits| == 1 && '\n' in old_ {
      LineOfPlace(s, hits[0]);
    } else if '\n' !in old_ {
      OnlyBlanks(old_);
    }
  }

  lemma {:induction false} OnlyBlanks(s: string)
    requires forall k | 0 <= k < |s| :: s[k] in " \t"
    ensures WsNormalised(s) == ""
  {
    if s != "" {
      OnlyBlanks(Front(s));
      assert Last(s) in " \t";
    }
  }

  // ------------------------------------------------------------------- ranges

  // A range is edited if it is in the file and both of its ends read as they
  // should; it is refused for its bounds first, then for either end.
  lemma RangeTells(s: string, first: int, last: int, expectFirst: string, expectLast: string, new_: string)
    ensures var r := ApplyingRange(s, first, last, expectFirst, expectLast, new_);
            var lines := Split(s);
            var within := 1 <= first <= last <= |lines|;
            && (r.Applied? <==> within && lines[first - 1] == expectFirst && lines[last - 1] == expectLast)
            && (r.Skipped? && r.reason == OutOfBounds <==> !within)
            && (r.Skipped? && r.reason == Mismatch
                <==> within && (lines[first - 1] != expectFirst || lines[last - 1] != expectLast))
  {
  }

  // The lines of the file after a range edit: the new ones, or none for an
  // empty text, in place of the old ones; a file without lines is empty.
  lemma RangeLines(s: string, first: int, last: int, new_: string)
    requires 1 <= first <= last <= |Split(s)|
    ensures var lines := Split(s);
            var r := ApplyingRange(s, first, last, lines[first - 1], lines[last - 1], new_);
            var after := lines[..first - 1] + (if new_ == "" then [] else Split(new_)) + lines[last..];
            && r.Applied? && r.replacements == 1 && !r.wrapped
            && (if after == [] then r.contents == "" else Split(r.contents) == after)
  {
    var lines := Split(s);
    var after := lines[..first - 1] + (if new_ == "" then [] else Split(new_)) + lines[last..];
    if after != [] {
      SplitJoin(after);
    }
  }
}
