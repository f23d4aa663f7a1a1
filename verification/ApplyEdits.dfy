/** Edits on a whole text: replacing a unique occurrence, all occurrences, or a
    range of lines checked at both ends; and when an edit can be undone. */
module ApplyEdits {
  import opened NearMiss
  import opened Text

  // ------------------------------------------------------------- occurrences

  // Every start of t in s at or after `from`, overlapping ones too.
  function Occurrences(s: string, t: string, from: nat): seq<nat>
    decreases |s| - from
  {
    if from + |t| > |s| then []
    else (if OccursAt(s, t, from) then [from] else []) + Occurrences(s, t, from + 1)
  }

  // The first start at or after `from`, or -1.
  function IndexOf(s: string, t: string, from: nat): (k: int)
    ensures k == -1 || (from <= k && k + |t| <= |s|)
    decreases |s| - from
  {
    if from + |t| > |s| then -1
    else if OccursAt(s, t, from) then from
    else IndexOf(s, t, from + 1)
  }

  lemma {:induction false} IndexOccurs(s: string, t: string, from: nat)
    ensures var k := IndexOf(s, t, from); k >= 0 ==> OccursAt(s, t, k)
    decreases |s| - from
  {
    if from + |t| <= |s| && !OccursAt(s, t, from) {
      IndexOccurs(s, t, from + 1);
    }
  }

  lemma {:induction false} OccurrencesFromFirst(s: string, t: string, from: nat)
    ensures var k := IndexOf(s, t, from);
            Occurrences(s, t, from) == if k == -1 then [] else [k as nat] + Occurrences(s, t, k + 1)
    decreases |s| - from
  {
    if from + |t| <= |s| {
      if OccursAt(s, t, from) {
        assert Occurrences(s, t, from) == [from] + Occurrences(s, t, from + 1);
      } else {
        OccurrencesFromFirst(s, t, from + 1);
        assert Occurrences(s, t, from) == [] + Occurrences(s, t, from + 1) == Occurrences(s, t, from + 1);
      }
    }
  }

  // The list holds exactly the starts, in ascending order.
  lemma {:induction false} OccurrencesAre(s: string, t: string, from: nat)
    ensures forall k: nat :: k in Occurrences(s, t, from) <==> from <= k && OccursAt(s, t, k)
    decreases |s| - from
  {
    if from + |t| <= |s| {
      OccurrencesAre(s, t, from + 1);
    }
  }

  lemma {:induction false} OccurrencesAscend(s: string, t: string, from: nat, i: nat, j: nat)
    requires i < j < |Occurrences(s, t, from)|
    ensures Occurrences(s, t, from)[i] < Occurrences(s, t, from)[j]
    decreases |s| - from
  {
    var rest := Occurrences(s, t, from + 1);
    if OccursAt(s, t, from) {
      if i == 0 {
        OccurrencesAre(s, t, from + 1);
        assert rest[j - 1] in rest;
      } else {
        OccurrencesAscend(s, t, from + 1, i - 1, j - 1);
      }
    } else {
      OccurrencesAscend(s, t, from + 1, i, j);
    }
  }

  method CountOccurrences(s: string, t: string) returns (n: nat)
    ensures n == |Occurrences(s, t, 0)|
  {
    n := 0;
    var from := 0;
    while true
      invariant n + |Occurrences(s, t, from)| == |Occurrences(s, t, 0)|
      invariant 0 <= from <= |s| + 1
      decreases |s| + 1 - from
    {
      var k := IndexOf(s, t, from);
      OccurrencesFromFirst(s, t, from);
      if k < 0 {
        return;
      }
      n := n + 1;
      from := k + 1;
    }
  }

  // ------------------------------------------------------------ replacing

  function ReplaceAt(s: string, k: nat, n: nat, t: string): string
    requires k + n <= |s|
  {
    s[..k] + t + s[k + n..]
  }

  // The text from `from` on, with non-overlapping replacements left to right.
  function ReplaceAll(s: string, old_: string, new_: string, from: nat): string
    requires old_ != "" && from <= |s|
    decreases |s| - from
  {
    var k := IndexOf(s, old_, from);
    if k < 0 then s[from..] else s[from..k] + new_ + ReplaceAll(s, old_, new_, k + |old_|)
  }

  function Replacements(s: string, old_: string, from: nat): nat
    requires old_ != "" && from <= |s|
    decreases |s| - from
  {
    var k := IndexOf(s, old_, from);
    if k < 0 then 0 else 1 + Replacements(s, old_, k + |old_|)
  }

  datatype Skip = NotFound | Ambiguous | OutOfBounds | Mismatch

  // `count` is the true number of occurrences; `lines` and `texts` show some.
  datatype Outcome =
    | Applied(contents: string, replacements: nat, wrapped: bool)
    | Skipped(reason: Skip, count: nat, lines: seq<nat>, texts: seq<string>, near: Report)

  function Refused(reason: Skip): Outcome {
    Skipped(reason, 0, [], [], NO_REPORT)
  }

  // Matching across hard wraps: where a text is found, and one replacement,
  // declined when it would take a structured block apart.
  datatype Patch = Patch(hits: nat, structured: bool, text: string)
  datatype Wrap = Wrap(find: (string, string) -> seq<nat>, patch: (string, string, string) -> Patch)

  predicate Places(w: Wrap, s: string, t: string) {
    forall k | 0 <= k < |w.find(s, t)| :: w.find(s, t)[k] <= |s|
  }

  ghost function Applying(w: Wrap, s: string, old_: string, new_: string, all: bool, wrapped: bool): Outcome
    requires Places(w, s, old_)
  {
    var found := Occurrences(s, old_, 0);
    if old_ == "" then Refused(NotFound)
    else if found == [] then Missing(w, s, old_, new_, wrapped && !all)
    else if all then Applied(ReplaceAll(s, old_, new_, 0), Replacements(s, old_, 0), false)
    else if |found| > 1 then Skipped(Ambiguous, |found|, LinesOf(s, FirstTen(found)), TextsOf(s, FirstTen(found)),
        NO_REPORT)
    else (FirstFits(s, old_); Applied(ReplaceAt(s, found[0], |old_|, new_), 1, false))
  }

  // The text is not there as it is: the wrapped match, if asked for, or the
  // near miss.
  ghost function Missing(w: Wrap, s: string, old_: string, new_: string, wrapped: bool): Outcome
    requires Places(w, s, old_)
  {
    var p := w.patch(s, old_, new_);
    if wrapped && p.hits > 1 then Skipped(Ambiguous, p.hits, [], [], NO_REPORT)
    else if wrapped && p.hits == 1 && !p.structured then Applied(p.text, 1, true)
    else Skipped(NotFound, 0, [], [], NearMissIn(s, old_, w.find(s, old_)))
  }

  lemma FirstFits(s: string, t: string)
    ensures var found := Occurrences(s, t, 0);
            found != [] ==> OccursAt(s, t, found[0]) && IndexOf(s, t, 0) == found[0]
  {
    OccurrencesFromFirst(s, t, 0);
    IndexOccurs(s, t, 0);
  }

  // ------------------------------------------------- where the occurrences are

  const MAX_REPORTED := 10

  function FirstTen(found: seq<nat>): seq<nat> {
    if |found| <= MAX_REPORTED then found else found[..MAX_REPORTED]
  }

  ghost function LinesOf(s: string, found: seq<nat>): seq<nat> {
    seq(|found|, i requires 0 <= i < |found| => if found[i] <= |s| then LineAt(s, found[i]) else 0)
  }

  ghost function TextsOf(s: string, found: seq<nat>): seq<string> {
    seq(|found|, i requires 0 <= i < |found| => if found[i] <= |s| then LineTextAt(s, found[i]) else "")
  }

  ghost predicate ReportedSoFar(s: string, t: string, from: nat, lines: seq<nat>, texts: seq<string>) {
    var all := Occurrences(s, t, 0);
    var n := |lines|;
    && n <= MAX_REPORTED && n <= |all| && Occurrences(s, t, from) == all[n..]
    && lines == LinesOf(s, all[..n]) && texts == TextsOf(s, all[..n])
  }

  lemma ReportOneMore(s: string, t: string, from: nat, lines: seq<nat>, texts: seq<string>, k: nat)
    requires ReportedSoFar(s, t, from, lines, texts) && |lines| < MAX_REPORTED && k == IndexOf(s, t, from) && k <= |s|
    ensures ReportedSoFar(s, t, k + 1, lines + [LineAt(s, k)], texts + [LineTextAt(s, k)])
  {
    OccurrencesFromFirst(s, t, from);
    var all := Occurrences(s, t, 0);
    var n := |lines|;
    assert all[n..][0] == k && all[n..][1..] == all[n + 1..];
    assert all[..n + 1] == all[..n] + [k];
    RowsGrow(s, all[..n], k);
  }

  lemma RowsGrow(s: string, found: seq<nat>, k: nat)
    requires k <= |s|
    ensures LinesOf(s, found + [k]) == LinesOf(s, found) + [LineAt(s, k)]
    ensures TextsOf(s, found + [k]) == TextsOf(s, found) + [LineTextAt(s, k)]
  {
  }

  // At most ten occurrences, in order, each with the line it starts on.
  method CollectOccurrenceLines(s: string, t: string) returns (lines: seq<nat>, texts: seq<string>)
    ensures lines == LinesOf(s, FirstTen(Occurrences(s, t, 0))) && texts == TextsOf(s, FirstTen(Occurrences(s, t, 0)))
  {
    lines, texts := [], [];
    var from, line, scanned := 0, 1, 0;
    while |lines| < MAX_REPORTED
      invariant ReportedSoFar(s, t, from, lines, texts)
      invariant 0 <= scanned <= |s| && line == LineAt(s, scanned) && scanned <= from
    {
      var k := IndexOf(s, t, from);
      if k < 0 {
        OccurrencesFromFirst(s, t, from);
        break;
      }
      ReportOneMore(s, t, from, lines, texts, k);
      line := CountLinesTo(s, scanned, line, k);
      scanned := k;
      var ls, le := LineBounds(s, k);
      lines := lines + [line];
      texts := texts + [s[ls..le]];
      from := k + 1;
    }
    var all := Occurrences(s, t, 0);
    assert all[..|lines|] == FirstTen(all);
  }

  method ApplyToContent(w: Wrap, s: string, old_: string, new_: string, all: bool, wrapped: bool) returns (r: Outcome)
    requires Places(w, s, old_)
    ensures r == Applying(w, s, old_, new_, all, wrapped)
  {
    if old_ == "" {
      return Refused(NotFound);
    }
    var count := CountOccurrences(s, old_);
    if count == 0 {
      if wrapped && !all {
        var p := w.patch(s, old_, new_);
        if p.hits > 1 {
          return Skipped(Ambiguous, p.hits, [], [], NO_REPORT);
        }
        if p.hits == 1 && !p.structured {
          return Applied(p.text, 1, true);
        }
      }
      var near := FindNearMiss(s, old_, w.find);
      return Skipped(NotFound, 0, [], [], near);
    }
    if count > 1 && !all {
      var lines, texts := CollectOccurrenceLines(s, old_);
      return Skipped(Ambiguous, count, lines, texts, NO_REPORT);
    }
    if all {
      var made := CountReplacements(s, old_);
      r := Applied(ReplaceAll(s, old_, new_, 0), made, false);
    } else {
      FirstFits(s, old_);
      var idx := IndexOf(s, old_, 0);
      r := Applied(ReplaceAt(s, idx, |old_|, new_), 1, false);
    }
  }

  // The wrapped match is a fallback: it changes no call that finds the text,
  // and none that replaces all.
  lemma WrappingOnlyHelps(w: Wrap, s: string, old_: string, new_: string, all: bool)
    requires Places(w, s, old_)
    ensures var plain := Applying(w, s, old_, new_, all, false);
            Applying(w, s, old_, new_, all, true) != plain ==> !all && plain.Skipped? && plain.reason == NotFound
  {
  }

  // The loop that counts replacements steps over each one.
  method CountReplacements(s: string, t: string) returns (made: nat)
    requires t != ""
    ensures made == Replacements(s, t, 0)
  {
    made := 0;
    var from := 0;
    while true
      invariant 0 <= from <= |s|
      invariant made + Replacements(s, t, from) == Replacements(s, t, 0)
      decreases |s| - from
    {
      var k := IndexOf(s, t, from);
      if k < 0 {
        return;
      }
      made := made + 1;
      from := k + |t|;
    }
  }

  lemma OneMoreChange(rest: int, total: int, from: int, k: int, oldLength: int, newLength: int, n: int)
    requires rest == total - (k + oldLength) + n * (newLength - oldLength)
    ensures (k - from) + newLength + rest == total - from + (1 + n) * (newLength - oldLength)
  {
    assert (1 + n) * (newLength - oldLength) == (newLength - oldLength) + n * (newLength - oldLength);
  }

  // Each replacement changes the length by the same amount.
  lemma {:induction false} ReplaceAllLength(s: string, old_: string, new_: string, from: nat)
    requires old_ != "" && from <= |s|
    ensures |ReplaceAll(s, old_, new_, from)| == |s| - from + Replacements(s, old_, from) * (|new_| - |old_|)
    decreases |s| - from
  {
    var k := IndexOf(s, old_, from);
    if k >= 0 {
      var next := k + |old_|;
      ReplaceAllLength(s, old_, new_, next);
      OneMoreChange(|ReplaceAll(s, old_, new_, next)|, |s|, from, k, |old_|, |new_|, Replacements(s, old_, next));
      assert |ReplaceAll(s, old_, new_, from)| == (k - from) + |new_| + |ReplaceAll(s, old_, new_, next)|;
    }
  }

  lemma Rejoined(s: string, t: string, from: nat, k: nat)
    requires from <= k && OccursAt(s, t, k)
    ensures s[from..k] + t + s[k + |t|..] == s[from..]
  {
  }

  lemma ReplaceFirst(s: string, old_: string, new_: string, from: nat, k: nat, rest: string)
    requires old_ != "" && from <= |s| && k == IndexOf(s, old_, from) && rest == ReplaceAll(s, old_, new_, k + |old_|)
    ensures ReplaceAll(s, old_, new_, from) == s[from..k] + new_ + rest
  {
  }

  // Replacing a text by itself everywhere changes nothing.
  lemma {:induction false} ReplaceAllByItself(s: string, old_: string, from: nat)
    requires old_ != "" && from <= |s|
    ensures ReplaceAll(s, old_, old_, from) == s[from..]
    decreases |s| - from
  {
    var k := IndexOf(s, old_, from);
    if k >= 0 {
      IndexOccurs(s, old_, from);
      ReplaceAllByItself(s, old_, k + |old_|);
      Rejoined(s, old_, from, k);
      ReplaceFirst(s, old_, old_, from, k, s[k + |old_|..]);
    }
  }

  // --------------------------------------------------------------------- undoing

  lemma ReplaceBack(s: string, i: nat, old_: string, new_: string)
    requires OccursAt(s, old_, i)
    ensures var r := ReplaceAt(s, i, |old_|, new_);
            OccursAt(r, new_, i) && ReplaceAt(r, i, |new_|, old_) == s
  {
    var r := ReplaceAt(s, i, |old_|, new_);
    assert r[..i] == s[..i] && r[i..i + |new_|] == new_ && r[i + |new_|..] == s[i + |old_|..];
    assert s == s[..i] + s[i..i + |old_|] + s[i + |old_|..];
  }

  // A verbatim single edit is one of a text that occurs once.
  lemma SingleEdit(w: Wrap, s: string, old_: string, new_: string, wrapped: bool)
    requires Places(w, s, old_)
    ensures var r := Applying(w, s, old_, new_, false, wrapped);
            var found := Occurrences(s, old_, 0);
            if old_ != "" && |found| == 1 then OccursAt(s, old_, found[0])
                && r == Applied(ReplaceAt(s, found[0], |old_|, new_), 1, false)
            else r.Applied? ==> r.wrapped
  {
    FirstFits(s, old_);
  }

  lemma ReverseEdit(w: Wrap, s: string, r: string, i: nat, old_: string, new_: string, wrapped: bool)
    requires Places(w, r, new_) && OccursAt(r, new_, i) && ReplaceAt(r, i, |new_|, old_) == s
    ensures Applying(w, r, new_, old_, false, wrapped) == Applied(s, 1, false)
       <==> new_ != "" && |Occurrences(r, new_, 0)| == 1
  {
    SingleEdit(w, r, new_, old_, wrapped);
    OccurrencesAre(r, new_, 0);
    assert i in Occurrences(r, new_, 0);
  }

  // A unique edit can be undone by the reverse edit exactly when the new text
  // is not empty and occurs once in the result.
  lemma EditUndoes(w: Wrap, s: string, old_: string, new_: string, wrapped: bool)
    requires Places(w, s, old_) && Applying(w, s, old_, new_, false, wrapped).Applied?
    requires !Applying(w, s, old_, new_, false, wrapped).wrapped
    ensures var r := Applying(w, s, old_, new_, false, wrapped).contents;
            Places(w, r, new_) ==>
              (Applying(w, r, new_, old_, false, wrapped) == Applied(s, 1, false)
               <==> new_ != "" && |Occurrences(r, new_, 0)| == 1)
  {
    SingleEdit(w, s, old_, new_, wrapped);
    var i := Occurrences(s, old_, 0)[0];
    var r := ReplaceAt(s, i, |old_|, new_);
    ReplaceBack(s, i, old_, new_);
    if Places(w, r, new_) {
      ReverseEdit(w, s, r, i, old_, new_, wrapped);
    }
  }

  // ---------------------------------------------------------------- line ranges

  // An empty replacement is no lines at all, not one blank line.
  function NewLines(new_: string): seq<string> {
    if new_ == "" then [] else Split(new_)
  }

  function ApplyingRange(s: string, first: int, last: int, expectFirst: string, expectLast: string,
      new_: string): Outcome {
    var lines := Split(s);
    if first < 1 || last < first || last > |lines| then Refused(OutOfBounds)
    else if lines[first - 1] != expectFirst || lines[last - 1] != expectLast then Refused(Mismatch)
    else Applied(Join(lines[..first - 1] + NewLines(new_) + lines[last..]), 1, false)
  }

  lemma InsertNext(head: seq<string>, repl: seq<string>, tail: seq<string>, i: nat)
    requires i < |repl|
    ensures var lines, at := head + repl[..i] + tail, |head| + i;
            lines[..at] + [repl[i]] + lines[at..] == head + repl[..i + 1] + tail
  {
    var lines, at := head + repl[..i] + tail, |head| + i;
    assert lines[..at] == head + repl[..i] && lines[at..] == tail;
    assert repl[..i + 1] == repl[..i] + [repl[i]];
  }

  method ApplyRange(s: string, first: int, last: int, expectFirst: string, expectLast: string, new_: string)
    returns (r: Outcome)
    ensures r == ApplyingRange(s, first, last, expectFirst, expectLast, new_)
  {
    var lines := Split(s);
    if first < 1 || last < first || last > |lines| {
      return Refused(OutOfBounds);
    }
    if lines[first - 1] != expectFirst || lines[last - 1] != expectLast {
      return Refused(Mismatch);
    }
    var repl := NewLines(new_);
    var head, tail := lines[..first - 1], lines[last..];
    lines := head + tail;
    var i := 0;
    while i < |repl|
      invariant 0 <= i <= |repl| && lines == head + repl[..i] + tail
    {
      InsertNext(head, repl, tail, i);
      lines := lines[..first - 1 + i] + [repl[i]] + lines[first - 1 + i..];
      i := i + 1;
    }
    assert repl[..i] == repl;
    r := Applied(Join(lines), 1, false);
  }

  lemma SplitOfSplice(head: seq<string>, mid: seq<string>, tail: seq<string>)
    requires AllOneLine(head) && AllOneLine(mid) && AllOneLine(tail) && |head + mid + tail| >= 1
    ensures Split(Join(head + mid + tail)) == head + mid + tail
  {
    SplitJoin(head + mid + tail);
  }

  lemma {:induction false} JoinLength(lines: seq<string>)
    ensures Join(lines) == "" <==> lines == [] || lines == [""]
  {
  }

  // Putting the replaced text back where its replacement stands.
  lemma PutBack(head: seq<string>, mid: seq<string>, tail: seq<string>)
    requires AllOneLine(head) && AllOneLine(mid) && AllOneLine(tail) && |mid| >= 1
    ensures Join(head + NewLines(Join(mid)) + tail) == Join(head + mid + tail)
       <==> (Join(mid) != "" || (head == [] && tail == []))
  {
    JoinLength(mid);
    if Join(mid) != "" {
      SplitJoin(mid);
    } else {
      BlankLineGoes(head, tail);
    }
  }

  // The lines after the splice, seen from the range that now holds it.
  lemma SplicedRange(head: seq<string>, repl: seq<string>, tail: seq<string>)
    requires |repl| >= 1
    ensures var lines := head + repl + tail;
            var back := |head| + |repl|;
            && lines[..|head|] == head && lines[back..] == tail
            && lines[|head|] == repl[0] && lines[back - 1] == repl[|repl| - 1]
  {
  }

  lemma SpliceUndoes(s: string, edited: string, first: int, last: int, head: seq<string>, mid: seq<string>,
      tail: seq<string>, repl: seq<string>)
    requires s == Join(head + mid + tail) && edited == Join(head + repl + tail)
    requires first == |head| + 1 && last == |head| + |repl|
    requires AllOneLine(head) && AllOneLine(mid) && AllOneLine(tail) && AllOneLine(repl) && |mid| >= 1 && |repl| >= 1
    ensures ApplyingRange(edited, first, last, repl[0], repl[|repl| - 1], Join(mid)) == Applied(s, 1, false)
       <==> (Join(mid) != "" || (head == [] && tail == []))
  {
    SplitOfSplice(head, repl, tail);
    RangeApplied(edited, first, last, head, repl, tail, Join(mid));
    PutBack(head, mid, tail);
  }

  // Line counts of a cut into head, range and tail.
  lemma CutIsWhole<T>(lines: seq<T>, first: int, last: int, head: seq<T>, mid: seq<T>, tail: seq<T>)
    requires 1 <= first <= last <= |lines|
    requires head == lines[..first - 1] && mid == lines[first - 1..last] && tail == lines[last..]
    ensures head + mid + tail == lines && |head| == first - 1 && |mid| == last - first + 1
    ensures mid[0] == lines[first - 1] && mid[|mid| - 1] == lines[last - 1]
  {
  }

  lemma SplitIsLines(s: string, lines: seq<string>)
    requires lines == Split(s)
    ensures AllOneLine(lines)
  {
  }

  lemma PartsAreLines(head: seq<string>, mid: seq<string>, tail: seq<string>)
    requires AllOneLine(head + mid + tail)
    ensures AllOneLine(head) && AllOneLine(mid) && AllOneLine(tail)
  {
    var lines := head + mid + tail;
    assert forall k | 0 <= k < |head| :: head[k] == lines[k];
    assert forall k | 0 <= k < |mid| :: mid[k] == lines[|head| + k];
    assert forall k | 0 <= k < |tail| :: tail[k] == lines[|head| + |mid| + k];
  }

  lemma OnlyLine(head: seq<string>, mid: seq<string>, tail: seq<string>)
    requires |mid| >= 1
    ensures Join(mid) != "" || (head == [] && tail == []) <==> Join(mid) != "" || |head + mid + tail| == 1
  {
    if Join(mid) == "" {
      JoinLength(mid);
    }
  }

  // A range edit with a replacement can be undone, by the range that now holds
  // it and its own first and last lines, exactly when the text it replaced was
  // not empty, or was the whole file.
  lemma RangeEditUndoes(s: string, lines: seq<string>, first: int, last: int, new_: string, repl: seq<string>)
    requires lines == Split(s) && repl == Split(new_)
    requires new_ != "" && 1 <= first <= last <= |lines|
    ensures var edit := ApplyingRange(s, first, last, lines[first - 1], lines[last - 1], new_);
            var replaced := Join(lines[first - 1..last]);
            && edit.Applied?
            && (ApplyingRange(edit.contents, first, first + |repl| - 1, repl[0], repl[|repl| - 1], replaced)
                 == Applied(s, 1, false)
                <==> (replaced != "" || |lines| == 1))
  {
    var head, mid, tail := lines[..first - 1], lines[first - 1..last], lines[last..];
    assert Cut(s, first, last, head, mid, tail) && mid[0] == lines[first - 1] && mid[|mid| - 1] == lines[last - 1]
        && (Join(mid) != "" || (head == [] && tail == []) <==> Join(mid) != "" || |lines| == 1) by {
      CutIsWhole(lines, first, last, head, mid, tail);
      SplitIsLines(s, lines);
      PartsAreLines(head, mid, tail);
      OnlyLine(head, mid, tail);
    }
    SplitIsLines(new_, repl);
    assert s == Join(head + mid + tail) by { JoinSplit(s); }
    CutEditUndoes(s, first, last, head, mid, tail, repl, new_);
  }

  ghost predicate Cut(s: string, first: int, last: int, head: seq<string>, mid: seq<string>, tail: seq<string>) {
    && Split(s) == head + mid + tail && |head| == first - 1 && |mid| == last - first + 1 && |mid| >= 1
    && AllOneLine(head) && AllOneLine(mid) && AllOneLine(tail)
  }

  lemma CutEditUndoes(s: string, first: int, last: int, head: seq<string>, mid: seq<string>, tail: seq<string>,
                      repl: seq<string>, new_: string)
    requires Cut(s, first, last, head, mid, tail) && s == Join(head + mid + tail) && repl == NewLines(new_)
            && |repl| >= 1 && AllOneLine(repl)
    ensures var edit := ApplyingRange(s, first, last, mid[0], mid[|mid| - 1], new_);
            && edit.Applied?
            && (ApplyingRange(edit.contents, first, first + |repl| - 1, repl[0], repl[|repl| - 1], Join(mid))
                 == Applied(s, 1, false)
                <==> (Join(mid) != "" || (head == [] && tail == [])))
  {
    var edited := Join(head + repl + tail);
    RangeApplied(s, first, last, head, mid, tail, new_);
    SpliceUndoes(s, edited, first, first + |repl| - 1, head, mid, tail, repl);
  }

  lemma RangeApplied(r: string, first: int, last: int, head: seq<string>, repl: seq<string>, tail: seq<string>,
      new_: string)
    requires |repl| >= 1 && Split(r) == head + repl + tail && first == |head| + 1 && last == |head| + |repl|
    ensures ApplyingRange(r, first, last, repl[0], repl[|repl| - 1], new_)
            == Applied(Join(head + NewLines(new_) + tail), 1, false)
  {
    SplicedRange(head, repl, tail);
  }

  // Taking a blank line out of several changes the text.
  lemma BlankLineGoes(head: seq<string>, tail: seq<string>)
    requires AllOneLine(head) && AllOneLine(tail)
    ensures Join(head + [] + tail) == Join(head + [""] + tail) <==> head == [] && tail == []
  {
    var without, with_ := head + [] + tail, head + [""] + tail;
    if without == [] {
      assert with_ == [""];
    } else {
      assert OneLine("");
      SplitJoin(without);
      SplitJoin(with_);
      assert |with_| == |without| + 1;
    }
  }
}
