/** Batch auto-fix of one file: repairs planned from one snapshot, applied one
    by one, highest line first, each against the file as it then is. A plan
    that no longer fits is refused. What the batch leaves is told twice: from
    the repairs that were applied, and from the snapshot and the plans alone. */
module Autofix {
  import opened Options
  import opened Text

  // `line` counts from 1. `original` is the line as it read when planned.
  datatype Repair = Repair(line: int, original: string, fixed: string, removeLine: bool)

  // ------------------------------------------------------------ one repair

  function Count(lines: seq<string>, text: string): nat {
    if lines == [] then 0 else (if lines[0] == text then 1 else 0) + Count(lines[1..], text)
  }

  // Lines that are not the empty part behind a final newline.
  function BodySize(parts: seq<string>): nat
    requires |parts| >= 1
  {
    if |parts| >= 2 && parts[|parts| - 1] == "" then |parts| - 1 else |parts|
  }

  // The plan still fits: the line is there and unchanged, and a removal is
  // of the only line that reads so.
  predicate Fits(parts: seq<string>, r: Repair)
    requires |parts| >= 1
  {
    && 1 <= r.line <= BodySize(parts) && parts[r.line - 1] == r.original
    && (r.removeLine ==> Count(parts[..BodySize(parts)], r.original) <= 1)
  }

  function Applied(parts: seq<string>, r: Repair): (out: seq<string>)
    requires |parts| >= 1
    ensures |out| >= 1
  {
    if !Fits(parts, r) then parts
    else if !r.removeLine then parts[r.line - 1 := r.fixed]
    else if BodySize(parts) == 1 then parts[0 := ""]
    else parts[..r.line - 1] + parts[r.line..]
  }

  function EndsInNewline(s: string): bool {
    |s| > 0 && s[|s| - 1] == '\n'
  }

  lemma {:induction false} LastPartIsEmpty(s: string)
    ensures EndsInNewline(s) <==> |Split(s)| >= 2 && Split(s)[|Split(s)| - 1] == ""
    decreases |s|
  {
    var e := LineEnd(s, 0);
    if e < |s| {
      LastPartIsEmpty(s[e + 1..]);
    }
  }

  lemma JoinTrailing(lines: seq<string>)
    requires |lines| >= 1
    ensures Join(lines) + "\n" == Join(lines + [""])
  {
    JoinConcat(lines, [""]);
  }

  method CountLines(lines: seq<string>, text: string) returns (n: nat)
    ensures n == Count(lines, text)
  {
    n := 0;
    var k := |lines|;
    assert lines[k..] == [];
    while k > 0
      invariant 0 <= k <= |lines| && n == Count(lines[k..], text)
    {
      k := k - 1;
      assert lines[k..][1..] == lines[k + 1..];
      if lines[k] == text {
        n := n + 1;
      }
    }
    assert lines[0..] == lines;
  }

  // Rewrites the file's text; refuses a plan that no longer fits.
  method ApplyRepair(contents: string, r: Repair) returns (ok: bool, out: string)
    requires OneLine(r.fixed)
    ensures ok == Fits(Split(contents), r)
    ensures Split(out) == Applied(Split(contents), r)
    ensures !ok ==> out == contents
  {
    var parts := Split(contents);
    LastPartIsEmpty(contents);
    var trailing := EndsInNewline(contents);
    var lines := parts;
    if trailing {
      lines := lines[..|lines| - 1];
    }
    assert lines == parts[..BodySize(parts)];
    ok, out := false, contents;
    if r.line < 1 || r.line > |lines| || lines[r.line - 1] != r.original {
      return;
    }
    if r.removeLine {
      var same := CountLines(lines, r.original);
      if same > 1 {
        return;
      }
    }
    ghost var body := lines;
    if r.removeLine {
      lines := lines[..r.line - 1] + lines[r.line..];
    } else {
      lines := lines[r.line - 1 := r.fixed];
    }
    ok, out := true, Join(lines);
    if trailing {
      out := out + "\n";
    }
    SplitOfEdited(parts, body, lines, trailing, r);
  }

  lemma SplitOfEdited(parts: seq<string>, body: seq<string>, lines: seq<string>, trailing: bool, r: Repair)
    requires |parts| >= 1 && AllOneLine(parts) && OneLine(r.fixed) && Fits(parts, r)
    requires trailing == (|parts| >= 2 && parts[|parts| - 1] == "") && body == parts[..BodySize(parts)]
    requires lines == if r.removeLine then body[..r.line - 1] + body[r.line..] else body[r.line - 1 := r.fixed]
    ensures Split(if trailing then Join(lines) + "\n" else Join(lines)) == Applied(parts, r)
  {
    var out := Applied(parts, r);
    assert OneLine("");
    assert AllOneLine(out);
    if trailing {
      assert parts == body + [""];
      assert out == (if lines == [] then [""] else lines) + [""];
      SplitTrailing(lines, out);
    } else {
      assert parts == body;
      assert out == if lines == [] then [""] else lines;
      SplitEnded(lines, out);
    }
  }

  lemma SplitTrailing(lines: seq<string>, out: seq<string>)
    requires AllOneLine(out) && out == (if lines == [] then [""] else lines) + [""]
    ensures Split(Join(lines) + "\n") == out
  {
    if lines == [] {
      assert Join([]) + "\n" == "" + "\n" + "";
      SplitCons("", "");
      SplitOne("");
    } else {
      JoinTrailing(lines);
      SplitJoin(out);
    }
  }

  lemma SplitEnded(lines: seq<string>, out: seq<string>)
    requires AllOneLine(out) && out == if lines == [] then [""] else lines
    ensures Split(Join(lines)) == out
  {
    if lines == [] {
      SplitOne("");
    } else {
      SplitJoin(out);
    }
  }

  // -------------------------------------------------------------- the batch

  // What every planned repair is against the snapshot it was planned from.
  ghost predicate PlannedFrom(snapshot: seq<string>, r: Repair)
    requires |snapshot| >= 1
  {
    && 1 <= r.line <= BodySize(snapshot) && r.original == snapshot[r.line - 1] && r.original != ""
    && OneLine(r.fixed) && (!r.removeLine ==> r.fixed != r.original)
  }

  ghost predicate HighestFirst(repairs: seq<Repair>) {
    forall i, j | 0 <= i < j < |repairs| :: repairs[i].line >= repairs[j].line
  }

  // The parts after the repairs, and which of them were applied.
  function ApplyAll(parts: seq<string>, repairs: seq<Repair>): (seq<string>, seq<bool>)
    requires |parts| >= 1
    decreases |repairs|
  {
    if repairs == [] then (parts, [])
    else
      var last := |repairs| - 1;
      var before := ApplyAll(parts, repairs[..last]);
      if |before.0| >= 1 then
        (Applied(before.0, repairs[last]), before.1 + [Fits(before.0, repairs[last])])
      else before
  }

  method ApplyBatch(contents: string, repairs: seq<Repair>) returns (out: string, applied: seq<bool>)
    requires forall k | 0 <= k < |repairs| :: OneLine(repairs[k].fixed)
    ensures (Split(out), applied) == ApplyAll(Split(contents), repairs)
  {
    out, applied := contents, [];
    var i := 0;
    assert repairs[..0] == [];
    while i < |repairs|
      invariant 0 <= i <= |repairs|
      invariant (Split(out), applied) == ApplyAll(Split(contents), repairs[..i])
    {
      assert repairs[..i + 1][..i] == repairs[..i];
      var ok;
      ok, out := ApplyRepair(out, repairs[i]);
      applied := applied + [ok];
      i := i + 1;
    }
    assert repairs[..i] == repairs;
  }

  // The snapshot with one edit a line: replaced, removed, or left.
  function Patched(parts: seq<string>, edits: map<int, Repair>, from: nat): seq<string>
    requires from <= |parts|
    decreases |parts| - from
  {
    if from == |parts| then [] else Piece(parts[from], edits, from + 1) + Patched(parts, edits, from + 1)
  }

  function Piece(text: string, edits: map<int, Repair>, line: int): seq<string> {
    if line !in edits then [text] else if edits[line].removeLine then [] else [edits[line].fixed]
  }

  // The first line went and left nothing, or nothing but a final newline.
  predicate LeavesNothing(parts: seq<string>, edits: map<int, Repair>)
    requires |parts| >= 1
  {
    1 in edits && edits[1].removeLine && (Patched(parts, edits, 1) == [] || Patched(parts, edits, 1) == [""])
  }

  function Final(parts: seq<string>, edits: map<int, Repair>): seq<string>
    requires |parts| >= 1
  {
    if LeavesNothing(parts, edits) then [""] + Patched(parts, edits, 1) else Patched(parts, edits, 0)
  }

  // The edits of the repairs that were applied, by line.
  function EditsOf(repairs: seq<Repair>, applied: seq<bool>): map<int, Repair>
    requires |repairs| == |applied|
  {
    if repairs == [] then map[]
    else
      var last := |repairs| - 1;
      var before := EditsOf(repairs[..last], applied[..last]);
      if applied[last] then before[repairs[last].line := repairs[last]] else before
  }

  function CountTrue(applied: seq<bool>): nat {
    if applied == [] then 0
    else CountTrue(applied[..|applied| - 1]) + (if applied[|applied| - 1] then 1 else 0)
  }

  lemma {:induction false} UntouchedPrefix(parts: seq<string>, edits: map<int, Repair>, from: nat, to: nat)
    requires from <= to <= |parts|
    requires forall line | line in edits :: line > to
    ensures Patched(parts, edits, from) == parts[from..to] + Patched(parts, edits, to)
    decreases |parts| - from
  {
    if from < to {
      UntouchedPrefix(parts, edits, from + 1, to);
      assert Piece(parts[from], edits, from + 1) == [parts[from]];
      FirstOfSlice(parts, from, to, Patched(parts, edits, to));
    } else {
      assert parts[from..to] == [];
    }
  }

  lemma FirstOfSlice(parts: seq<string>, from: nat, to: nat, rest: seq<string>)
    requires from < to <= |parts|
    ensures [parts[from]] + (parts[from + 1..to] + rest) == parts[from..to] + rest
  {
    assert parts[from..to] == [parts[from]] + parts[from + 1..to];
  }

  lemma {:induction false} PatchedAbove(parts: seq<string>, edits: map<int, Repair>, line: int, r: Repair, from: nat)
    requires from <= |parts| && line <= from
    ensures Patched(parts, edits[line := r], from) == Patched(parts, edits, from)
    decreases |parts| - from
  {
    if from < |parts| {
      PatchedAbove(parts, edits, line, r, from + 1);
    }
  }

  // State of a batch: the edits so far are at or above line `low`, and a line
  // that was removed reads like none that is left.
  ghost predicate Progress(snapshot: seq<string>, parts: seq<string>, edits: map<int, Repair>, low: int)
    requires |snapshot| >= 1
  {
    && parts == Final(snapshot, edits) && |parts| >= 1
    && (forall line | line in edits :: line >= low && PlannedFrom(snapshot, edits[line]) && edits[line].line == line)
    && (low in edits && edits[low].removeLine ==> edits[low].original !in parts)
  }

  lemma {:induction false} CountZero(lines: seq<string>, text: string)
    ensures Count(lines, text) == 0 <==> text !in lines
  {
    if lines != [] {
      CountZero(lines[1..], text);
    }
  }

  lemma {:induction false} CountConcat(a: seq<string>, b: seq<string>, text: string)
    ensures Count(a + b, text) == Count(a, text) + Count(b, text)
    decreases |a|
  {
    if a == [] {
      assert a + b == b;
    } else {
      assert (a + b)[1..] == a[1..] + b;
      CountConcat(a[1..], b, text);
    }
  }

  lemma PatchedAtStanding(snapshot: seq<string>, edits: map<int, Repair>, i: nat)
    requires i < |snapshot| && forall line | line in edits :: line > i + 1
    ensures Patched(snapshot, edits, 0) == snapshot[..i] + [snapshot[i]] + Patched(snapshot, edits, i + 1)
  {
    var rest := Patched(snapshot, edits, i + 1);
    UntouchedPrefix(snapshot, edits, 0, i);
    assert snapshot[0..i] == snapshot[..i];
    assert Patched(snapshot, edits, i) == Piece(snapshot[i], edits, i + 1) + rest;
    assert snapshot[..i] + ([snapshot[i]] + rest) == snapshot[..i] + [snapshot[i]] + rest;
  }

  lemma InBody(head: seq<string>, text: string, rest: seq<string>)
    requires text != ""
    ensures var parts := head + [text] + rest; |head| < BodySize(parts) && parts[|head|] == text
  {
  }

  // A line that no edit touched stands where it stood, with the patched rest
  // behind it.
  lemma LineStands(snapshot: seq<string>, parts: seq<string>, edits: map<int, Repair>, low: int, r: Repair)
    requires |snapshot| >= 1 && PlannedFrom(snapshot, r) && r.line <= low && r.line !in edits
    requires Progress(snapshot, parts, edits, low)
    ensures parts == snapshot[..r.line - 1] + [r.original] + Patched(snapshot, edits, r.line)
    ensures 1 <= r.line <= BodySize(parts) && parts[r.line - 1] == r.original
    ensures forall line | line in edits :: line > r.line
  {
    var i := r.line - 1;
    assert forall line | line in edits :: line > i + 1;
    PatchedAtStanding(snapshot, edits, i);
    InBody(snapshot[..i], r.original, Patched(snapshot, edits, i + 1));
  }

  // A line that was already edited reads differently now: a second plan for
  // it is refused.
  lemma SecondPlanIsStale(snapshot: seq<string>, parts: seq<string>, edits: map<int, Repair>, low: int, r: Repair)
    requires |snapshot| >= 1 && PlannedFrom(snapshot, r) && r.line <= low && r.line in edits
    requires Progress(snapshot, parts, edits, low)
    ensures !Fits(parts, r)
  {
    var i := r.line - 1;
    assert r.line == low;
    if edits[low].removeLine {
      assert edits[low].original == r.original;
      assert 1 <= r.line <= BodySize(parts) ==> parts[r.line - 1] in parts;
    } else {
      UntouchedPrefix(snapshot, edits, 0, i);
      assert snapshot[0..i] == snapshot[..i];
      assert Patched(snapshot, edits, i) == Piece(snapshot[i], edits, i + 1) + Patched(snapshot, edits, i + 1);
      assert parts[i] == edits[low].fixed;
    }
  }

  // The final parts when the lowest edit is that of `r`.
  lemma FinalWithLowest(snapshot: seq<string>, edits: map<int, Repair>, r: Repair)
    requires |snapshot| >= 1 && 1 <= r.line <= |snapshot| && forall line | line in edits :: line > r.line
    ensures var rest := Patched(snapshot, edits, r.line);
            Final(snapshot, edits[r.line := r])
            == if r.removeLine && r.line == 1 && (rest == [] || rest == [""]) then [""] + rest
               else snapshot[..r.line - 1] + ((if r.removeLine then [] else [r.fixed]) + rest)
  {
    var i := r.line - 1;
    var edits' := edits[r.line := r];
    PatchedAbove(snapshot, edits, r.line, r, i + 1);
    UntouchedPrefix(snapshot, edits', 0, i);
    assert snapshot[0..i] == snapshot[..i];
    assert Patched(snapshot, edits', i) == Piece(snapshot[i], edits', i + 1) + Patched(snapshot, edits', i + 1);
  }

  // What a fitting repair makes of a standing line.
  lemma AppliedToStanding(head: seq<string>, rest: seq<string>, r: Repair)
    requires |head| == r.line - 1 && r.original != ""
    requires Fits(head + [r.original] + rest, r)
    ensures Applied(head + [r.original] + rest, r)
         == if r.removeLine && head == [] && (rest == [] || rest == [""]) then [""] + rest
            else head + ((if r.removeLine then [] else [r.fixed]) + rest)
  {
    if r.removeLine {
      RemovedFromStanding(head, rest, r);
    } else {
      StandingCuts(head, r.original, rest, r.fixed);
    }
  }

  lemma StandingCuts(head: seq<string>, line: string, rest: seq<string>, fixed: string)
    ensures var parts := head + [line] + rest;
            && |parts| == |head| + 1 + |rest| && parts[|head|] == line
            && parts[..|head|] == head && parts[|head| + 1..] == rest
            && parts[|head| := fixed] == head + ([fixed] + rest)
  {
  }

  lemma BodyOfStanding(head: seq<string>, line: string, rest: seq<string>)
    requires line != ""
    ensures BodySize(head + [line] + rest) == 1 <==> head == [] && (rest == [] || rest == [""])
  {
    StandingCuts(head, line, rest, line);
  }

  lemma RemovedFromStanding(head: seq<string>, rest: seq<string>, r: Repair)
    requires |head| == r.line - 1 && r.original != "" && r.removeLine
    requires Fits(head + [r.original] + rest, r)
    ensures Applied(head + [r.original] + rest, r)
         == if head == [] && (rest == [] || rest == [""]) then [""] + rest else head + ([] + rest)
  {
    StandingCuts(head, r.original, rest, "");
    BodyOfStanding(head, r.original, rest);
  }

  // Applying a repair to a standing line adds exactly its edit.
  lemma ApplyAddsEdit(snapshot: seq<string>, parts: seq<string>, edits: map<int, Repair>, low: int, r: Repair)
    requires |snapshot| >= 1 && PlannedFrom(snapshot, r) && r.line <= low && r.line !in edits
    requires Progress(snapshot, parts, edits, low) && Fits(parts, r)
    ensures Progress(snapshot, Applied(parts, r), edits[r.line := r], r.line)
  {
    var edits' := edits[r.line := r];
    assert Applied(parts, r) == Final(snapshot, edits') by {
      LineStands(snapshot, parts, edits, low, r);
      FinalWithLowest(snapshot, edits, r);
      AppliedToStanding(snapshot[..r.line - 1], Patched(snapshot, edits, r.line), r);
    }
    assert edits'[r.line] == r;
    if r.removeLine {
      RemovedIsGone(parts, r);
    }
  }

  lemma RemovedIsGone(parts: seq<string>, r: Repair)
    requires |parts| >= 1 && Fits(parts, r) && r.removeLine && r.original != ""
    ensures r.original !in Applied(parts, r)
  {
    var i := r.line - 1;
    var n := BodySize(parts);
    var body := parts[..n];
    assert body == body[..i] + [body[i]] + body[i + 1..];
    CountConcat(body[..i] + [body[i]], body[i + 1..], r.original);
    CountConcat(body[..i], [body[i]], r.original);
    CountZero(body[..i], r.original);
    CountZero(body[i + 1..], r.original);
    assert Count([body[i]], r.original) == 1;
    assert forall k | 0 <= k < |parts| && k != i :: parts[k] != r.original by {
      forall k | 0 <= k < |parts| && k != i ensures parts[k] != r.original {
        if k < i {
          assert body[..i][k] == parts[k];
        } else if k < n {
          assert body[i + 1..][k - i - 1] == parts[k];
        }
      }
    }
  }

  ghost predicate Batch(snapshot: seq<string>, repairs: seq<Repair>) {
    |snapshot| >= 1 && HighestFirst(repairs) && forall k | 0 <= k < |repairs| :: PlannedFrom(snapshot, repairs[k])
  }

  // The lowest line a batch has reached.
  function Lowest(snapshot: seq<string>, repairs: seq<Repair>): int
    requires |snapshot| >= 1
  {
    if repairs == [] then BodySize(snapshot) else repairs[|repairs| - 1].line
  }

  lemma PlansOf(snapshot: seq<string>, rest: seq<Repair>, r: Repair)
    requires Batch(snapshot, rest + [r])
    ensures Batch(snapshot, rest) && PlannedFrom(snapshot, r) && r.line <= Lowest(snapshot, rest)
    ensures forall j | 0 <= j < |rest| :: rest[j].line >= r.line
  {
    var repairs := rest + [r];
    assert repairs[|rest|] == r;
    forall j | 0 <= j < |rest| ensures PlannedFrom(snapshot, rest[j]) && rest[j].line >= r.line {
      assert repairs[j] == rest[j];
    }
    forall i, j | 0 <= i < j < |rest| ensures rest[i].line >= rest[j].line {
      assert repairs[i] == rest[i] && repairs[j] == rest[j];
    }
  }

  lemma LastEdit(snapshot: seq<string>, rest: seq<Repair>, r: Repair, parts: seq<string>, applied: seq<bool>)
    requires |snapshot| >= 1 && |parts| >= 1 && |applied| == |rest| && ApplyAll(snapshot, rest) == (parts, applied)
    ensures var all := ApplyAll(snapshot, rest + [r]);
            && all == (Applied(parts, r), applied + [Fits(parts, r)])
            && EditsOf(rest + [r], all.1)
               == if Fits(parts, r) then EditsOf(rest, applied)[r.line := r] else EditsOf(rest, applied)
  {
    assert (rest + [r])[..|rest|] == rest;
    assert (applied + [Fits(parts, r)])[..|rest|] == applied;
  }

  // The batch gives the snapshot with each applied repair's own line replaced
  // or removed where it stood and every other line unchanged; no line is
  // repaired twice; a lone replacement is always applied.
  lemma {:induction false} BatchIsPatch(snapshot: seq<string>, repairs: seq<Repair>)
    requires Batch(snapshot, repairs)
    ensures var (parts, applied) := ApplyAll(snapshot, repairs);
            && |applied| == |repairs|
            && var edits := EditsOf(repairs, applied);
            && Progress(snapshot, parts, edits, Lowest(snapshot, repairs))
            && |edits| == CountTrue(applied)
    decreases |repairs|
  {
    if repairs == [] {
      UntouchedPrefix(snapshot, map[], 0, |snapshot|);
      assert snapshot[0..|snapshot|] == snapshot;
    } else {
      var r, rest := repairs[|repairs| - 1], repairs[..|repairs| - 1];
      assert repairs == rest + [r];
      PlansOf(snapshot, rest, r);
      BatchIsPatch(snapshot, rest);
      var (parts, applied) := ApplyAll(snapshot, rest);
      LastEdit(snapshot, rest, r, parts, applied);
      var edits := EditsOf(rest, applied);
      var ok := Fits(parts, r);
      CountOneMore(applied, ok);
      if r.line in edits {
        SecondPlanIsStale(snapshot, parts, edits, Lowest(snapshot, rest), r);
      } else if ok {
        ApplyAddsEdit(snapshot, parts, edits, Lowest(snapshot, rest), r);
      }
    }
  }

  lemma CountOneMore(applied: seq<bool>, ok: bool)
    ensures CountTrue(applied + [ok]) == CountTrue(applied) + (if ok then 1 else 0)
  {
    assert (applied + [ok])[..|applied|] == applied;
  }

  // ------------------------------------------- the outcome, from the plans

  // A line's edit: its first plan that is a replacement, or the removal of a
  // line that reads like no other.
  function EditFor(repairs: seq<Repair>, line: int, twin: bool): Option<Repair>
    decreases |repairs|
  {
    if repairs == [] then None
    else
      var last := repairs[|repairs| - 1];
      var before := EditFor(repairs[..|repairs| - 1], line, twin);
      if before.Some? || last.line != line || (last.removeLine && twin) then before else Some(last)
  }

  // What becomes of the parts from `from` on, the highest line first: an
  // equal line below, or above as it is left, is a twin.
  function Outcome(snapshot: seq<string>, repairs: seq<Repair>, from: nat): seq<string>
    requires from <= |snapshot|
    decreases |snapshot| - from
  {
    if from == |snapshot| then []
    else
      var rest := Outcome(snapshot, repairs, from + 1);
      OutcomePiece(snapshot[from], EditFor(repairs, from + 1, HasTwin(snapshot, from, rest))) + rest
  }

  function OutcomePiece(text: string, edit: Option<Repair>): seq<string> {
    if edit.None? then [text] else if edit.value.removeLine then [] else [edit.value.fixed]
  }

  predicate HasTwin(snapshot: seq<string>, i: nat, rest: seq<string>)
    requires i < |snapshot|
  {
    snapshot[i] in snapshot[..i] || snapshot[i] in rest
  }

  // Line one goes and a single empty part is left: the empty list of lines
  // is joined to nothing, and the final newline is put behind it.
  predicate BlankStays(snapshot: seq<string>, repairs: seq<Repair>)
    requires |snapshot| >= 1
  {
    var rest := Outcome(snapshot, repairs, 1);
    rest == [""] && var edit := EditFor(repairs, 1, HasTwin(snapshot, 0, rest)); edit.Some? && edit.value.removeLine
  }

  function EditAt(edits: map<int, Repair>, line: int): Option<Repair> {
    if line in edits then Some(edits[line]) else None
  }

  // The edits made to the lines are those planned for them.
  ghost predicate AsPlanned(snapshot: seq<string>, repairs: seq<Repair>, edits: map<int, Repair>) {
    forall i: nat | i < |snapshot| :: EditIsPlanned(snapshot, repairs, edits, i)
  }

  ghost predicate EditIsPlanned(snapshot: seq<string>, repairs: seq<Repair>, edits: map<int, Repair>, i: nat)
    requires i < |snapshot|
  {
    EditAt(edits, i + 1) == EditFor(repairs, i + 1, HasTwin(snapshot, i, Patched(snapshot, edits, i + 1)))
  }

  lemma {:induction false} NoPlanNoEdit(repairs: seq<Repair>, line: int, twin: bool)
    requires forall j | 0 <= j < |repairs| :: repairs[j].line != line
    ensures EditFor(repairs, line, twin) == None
  {
    if repairs != [] {
      NoPlanNoEdit(repairs[..|repairs| - 1], line, twin);
    }
  }

  lemma CountInBody(head: seq<string>, text: string, rest: seq<string>)
    requires text != ""
    ensures var parts := head + [text] + rest;
            Count(parts[..BodySize(parts)], text) <= 1 <==> text !in head && text !in rest
  {
    var parts := head + [text] + rest;
    var n := BodySize(parts);
    var above := rest[..n - |head| - 1];
    assert parts[..n] == head + [text] + above;
    CountConcat(head + [text], above, text);
    CountConcat(head, [text], text);
    CountZero(head, text);
    CountZero(above, text);
    CountOne(text);
    if n < |parts| {
      assert rest == above + [""];
    }
  }

  lemma CountOne(text: string)
    ensures Count([text], text) == 1
  {
    assert [text][1..] == [];
  }

  // A standing line is removed exactly when it has no twin, and a replacement
  // of it always fits.
  lemma FitsStanding(snapshot: seq<string>, parts: seq<string>, edits: map<int, Repair>, low: int, r: Repair)
    requires |snapshot| >= 1 && PlannedFrom(snapshot, r) && r.line <= low && r.line !in edits
    requires Progress(snapshot, parts, edits, low)
    ensures Fits(parts, r) <==> (r.removeLine ==> !HasTwin(snapshot, r.line - 1, Patched(snapshot, edits, r.line)))
  {
    LineStands(snapshot, parts, edits, low, r);
    CountInBody(snapshot[..r.line - 1], r.original, Patched(snapshot, edits, r.line));
  }

  // One more repair that leaves the edits alone.
  lemma RefusedAsPlanned(snapshot: seq<string>, rest: seq<Repair>, r: Repair, edits: map<int, Repair>)
    requires AsPlanned(snapshot, rest, edits) && 1 <= r.line <= |snapshot|
    requires r.line in edits || (r.removeLine && HasTwin(snapshot, r.line - 1, Patched(snapshot, edits, r.line)))
    ensures AsPlanned(snapshot, rest + [r], edits)
  {
    assert (rest + [r])[..|rest|] == rest;
    forall i: nat | i < |snapshot| ensures EditIsPlanned(snapshot, rest + [r], edits, i) {
      assert EditIsPlanned(snapshot, rest, edits, i);
    }
  }

  // One more repair that edits its line, below all that were edited.
  lemma AppliedAsPlanned(snapshot: seq<string>, rest: seq<Repair>, r: Repair, edits: map<int, Repair>)
    requires AsPlanned(snapshot, rest, edits) && 1 <= r.line <= |snapshot| && r.line !in edits
    requires forall j | 0 <= j < |rest| :: rest[j].line >= r.line
    requires r.removeLine ==> !HasTwin(snapshot, r.line - 1, Patched(snapshot, edits, r.line))
    ensures AsPlanned(snapshot, rest + [r], edits[r.line := r])
  {
    var edits' := edits[r.line := r];
    assert (rest + [r])[..|rest|] == rest;
    forall i: nat | i < |snapshot| ensures EditIsPlanned(snapshot, rest + [r], edits', i) {
      assert EditIsPlanned(snapshot, rest, edits, i);
      if i + 1 < r.line {
        NoPlanNoEdit(rest, i + 1, HasTwin(snapshot, i, Patched(snapshot, edits', i + 1)));
        NoPlanNoEdit(rest, i + 1, HasTwin(snapshot, i, Patched(snapshot, edits, i + 1)));
      } else {
        PatchedAbove(snapshot, edits, r.line, r, i + 1);
      }
    }
  }

  // The edits of a batch follow from the snapshot and the plans alone.
  lemma {:induction false} EditsArePlanned(snapshot: seq<string>, repairs: seq<Repair>)
    requires Batch(snapshot, repairs)
    ensures var (parts, applied) := ApplyAll(snapshot, repairs);
            |applied| == |repairs| && AsPlanned(snapshot, repairs, EditsOf(repairs, applied))
    decreases |repairs|
  {
    BatchIsPatch(snapshot, repairs);
    if repairs == [] {
    } else {
      var last := |repairs| - 1;
      var r, rest := repairs[last], repairs[..last];
      assert repairs == rest + [r];
      assert PlannedFrom(snapshot, r);
      BatchIsPatch(snapshot, rest);
      EditsArePlanned(snapshot, rest);
      var (parts, applied) := ApplyAll(snapshot, rest);
      PlannedStep(snapshot, rest, r, parts, EditsOf(rest, applied));
      LastEdit(snapshot, rest, r, parts, applied);
    }
  }

  lemma PlannedStep(snapshot: seq<string>, rest: seq<Repair>, r: Repair, parts: seq<string>, edits: map<int, Repair>)
    requires Batch(snapshot, rest + [r]) && |parts| >= 1 && AsPlanned(snapshot, rest, edits)
    requires Progress(snapshot, parts, edits, Lowest(snapshot, rest))
    ensures AsPlanned(snapshot, rest + [r], if Fits(parts, r) then edits[r.line := r] else edits)
  {
    var low := Lowest(snapshot, rest);
    PlansOf(snapshot, rest, r);
    if r.line in edits {
      SecondPlanIsStale(snapshot, parts, edits, low, r);
      RefusedAsPlanned(snapshot, rest, r, edits);
    } else {
      FitsStanding(snapshot, parts, edits, low, r);
      if Fits(parts, r) {
        AppliedAsPlanned(snapshot, rest, r, edits);
      } else {
        RefusedAsPlanned(snapshot, rest, r, edits);
      }
    }
  }

  lemma {:induction false} OutcomeIsPatched(snapshot: seq<string>, repairs: seq<Repair>, edits: map<int, Repair>,
      from: nat)
    requires from <= |snapshot| && AsPlanned(snapshot, repairs, edits)
    ensures Outcome(snapshot, repairs, from) == Patched(snapshot, edits, from)
    decreases |snapshot| - from
  {
    if from < |snapshot| {
      OutcomeIsPatched(snapshot, repairs, edits, from + 1);
      assert EditIsPlanned(snapshot, repairs, edits, from);
    }
  }

  // The text a batch leaves is the planned outcome, except that a file whose
  // lines all go keeps one blank line.
  lemma BatchText(contents: string, repairs: seq<Repair>, out: string, applied: seq<bool>)
    requires Batch(Split(contents), repairs) && (Split(out), applied) == ApplyAll(Split(contents), repairs)
    ensures out == Join(Outcome(Split(contents), repairs, 0)) <==> !BlankStays(Split(contents), repairs)
    ensures BlankStays(Split(contents), repairs) ==> out == "\n"
  {
    var snapshot := Split(contents);
    EditsArePlanned(snapshot, repairs);
    BatchIsPatch(snapshot, repairs);
    var edits := EditsOf(repairs, applied);
    OutcomeIsPatched(snapshot, repairs, edits, 0);
    OutcomeIsPatched(snapshot, repairs, edits, 1);
    JoinSplit(out);
    FinalText(snapshot, repairs, edits);
  }

  lemma FinalText(snapshot: seq<string>, repairs: seq<Repair>, edits: map<int, Repair>)
    requires |snapshot| >= 1 && AsPlanned(snapshot, repairs, edits)
    requires Outcome(snapshot, repairs, 1) == Patched(snapshot, edits, 1)
    ensures Join(Final(snapshot, edits)) == Join(Patched(snapshot, edits, 0)) <==> !BlankStays(snapshot, repairs)
    ensures BlankStays(snapshot, repairs) ==> Join(Final(snapshot, edits)) == "\n"
  {
    var rest := Patched(snapshot, edits, 1);
    assert EditIsPlanned(snapshot, repairs, edits, 0);
    if LeavesNothing(snapshot, edits) {
      assert Patched(snapshot, edits, 0) == rest;
      if rest == [""] {
        assert Join(["", ""]) == "" + "\n" + Join(["", ""][1..]);
      }
    }
  }

  // Part i reads like none below it, and the first plan for it is a removal.
  ghost predicate GoesFirst(snapshot: seq<string>, repairs: seq<Repair>, i: nat)
    requires i < |snapshot|
  {
    && snapshot[i] !in snapshot[..i]
    && var plan := EditFor(repairs, i + 1, false); plan.Some? && plan.value.removeLine
  }

  lemma {:induction false} EditForIsPlanned(snapshot: seq<string>, repairs: seq<Repair>, line: int, twin: bool)
    requires Batch(snapshot, repairs)
    ensures var edit := EditFor(repairs, line, twin);
            && (edit.Some? ==> edit.value.line == line && PlannedFrom(snapshot, edit.value))
            && (edit.Some? && twin ==> !edit.value.removeLine)
  {
    if repairs != [] {
      EditForIsPlanned(snapshot, repairs[..|repairs| - 1], line, twin);
    }
  }

  // The empty part behind a final newline has no plan.
  lemma LastOutcome(snapshot: seq<string>, repairs: seq<Repair>)
    requires Batch(snapshot, repairs) && snapshot[|snapshot| - 1] == ""
    ensures Outcome(snapshot, repairs, |snapshot| - 1) == [""]
  {
    var last := |snapshot| - 1;
    assert Outcome(snapshot, repairs, last + 1) == [];
    EditForIsPlanned(snapshot, repairs, last + 1, HasTwin(snapshot, last, []));
  }

  lemma {:induction false} AllGo(snapshot: seq<string>, repairs: seq<Repair>, from: nat)
    requires Batch(snapshot, repairs) && snapshot[|snapshot| - 1] == "" && from < |snapshot|
    requires forall i: nat | from <= i < |snapshot| - 1 :: GoesFirst(snapshot, repairs, i)
    ensures Outcome(snapshot, repairs, from) == [""]
    decreases |snapshot| - from
  {
    if from == |snapshot| - 1 {
      LastOutcome(snapshot, repairs);
    } else {
      AllGo(snapshot, repairs, from + 1);
      assert GoesFirst(snapshot, repairs, from);
      EditForIsPlanned(snapshot, repairs, from + 1, false);
      assert !HasTwin(snapshot, from, [""]);
    }
  }

  lemma PieceIsEmpty(piece: seq<string>, rest: seq<string>)
    requires rest != [] && |piece + rest| == 1
    ensures piece == [] && piece + rest == rest
  {
  }

  lemma GoneIsFirst(snapshot: seq<string>, repairs: seq<Repair>, i: nat, rest: seq<string>)
    requires Batch(snapshot, repairs) && i < |snapshot|
    requires OutcomePiece(snapshot[i], EditFor(repairs, i + 1, HasTwin(snapshot, i, rest))) == []
    ensures GoesFirst(snapshot, repairs, i)
  {
    EditForIsPlanned(snapshot, repairs, i + 1, HasTwin(snapshot, i, rest));
  }

  lemma OneWent(snapshot: seq<string>, repairs: seq<Repair>, from: nat, rest: seq<string>)
    requires Batch(snapshot, repairs) && snapshot[|snapshot| - 1] == "" && from < |snapshot| - 1
    requires Outcome(snapshot, repairs, from) == [""] && rest == Outcome(snapshot, repairs, from + 1)
    ensures GoesFirst(snapshot, repairs, from) && rest == [""]
  {
    SomethingIsLeft(snapshot, repairs, from + 1);
    PieceIsEmpty(OutcomePiece(snapshot[from], EditFor(repairs, from + 1, HasTwin(snapshot, from, rest))), rest);
    GoneIsFirst(snapshot, repairs, from, rest);
  }

  predicate OneBlankFrom(snapshot: seq<string>, repairs: seq<Repair>, i: nat)
    requires i <= |snapshot|
  {
    Outcome(snapshot, repairs, i) == [""]
  }

  lemma NextWent(snapshot: seq<string>, repairs: seq<Repair>, i: nat)
    requires Batch(snapshot, repairs) && snapshot[|snapshot| - 1] == "" && i < |snapshot| - 1
    requires OneBlankFrom(snapshot, repairs, i)
    ensures GoesFirst(snapshot, repairs, i) && OneBlankFrom(snapshot, repairs, i + 1)
  {
    OneWent(snapshot, repairs, i, Outcome(snapshot, repairs, i + 1));
  }

  lemma {:induction false} BlankAllAlong(snapshot: seq<string>, repairs: seq<Repair>, i: nat)
    requires Batch(snapshot, repairs) && snapshot[|snapshot| - 1] == "" && i < |snapshot|
    requires OneBlankFrom(snapshot, repairs, 0)
    ensures OneBlankFrom(snapshot, repairs, i)
  {
    if i > 0 {
      BlankAllAlong(snapshot, repairs, i - 1);
      NextWent(snapshot, repairs, i - 1);
    }
  }

  lemma {:induction false} SomethingIsLeft(snapshot: seq<string>, repairs: seq<Repair>, from: nat)
    requires Batch(snapshot, repairs) && snapshot[|snapshot| - 1] == "" && from < |snapshot|
    ensures Outcome(snapshot, repairs, from) != []
    decreases |snapshot| - from
  {
    if from == |snapshot| - 1 {
      LastOutcome(snapshot, repairs);
    } else {
      SomethingIsLeft(snapshot, repairs, from + 1);
    }
  }

  // In a file that ends in a newline the blank line stays exactly when its
  // lines are all different and the first plan of each is a removal.
  lemma BlankStaysWhenAllGo(contents: string, repairs: seq<Repair>)
    requires EndsInNewline(contents) && Batch(Split(contents), repairs)
    ensures var snapshot := Split(contents);
            BlankStays(snapshot, repairs) <==> forall i: nat | i < |snapshot| - 1 :: GoesFirst(snapshot, repairs, i)
  {
    LastPartIsEmpty(contents);
    BlankStaysInLines(Split(contents), repairs);
  }

  lemma BlankStaysInLines(snapshot: seq<string>, repairs: seq<Repair>)
    requires Batch(snapshot, repairs) && |snapshot| >= 2 && snapshot[|snapshot| - 1] == ""
    ensures BlankStays(snapshot, repairs) <==> forall i: nat | i < |snapshot| - 1 :: GoesFirst(snapshot, repairs, i)
  {
    LastOutcome(snapshot, repairs);
    if BlankStays(snapshot, repairs) {
      forall i: nat | i < |snapshot| - 1 ensures GoesFirst(snapshot, repairs, i) {
        BlankAllAlong(snapshot, repairs, i);
        NextWent(snapshot, repairs, i);
      }
    }
    if forall i: nat | i < |snapshot| - 1 :: GoesFirst(snapshot, repairs, i) {
      AllGo(snapshot, repairs, 1);
      assert GoesFirst(snapshot, repairs, 0);
      EditForIsPlanned(snapshot, repairs, 1, false);
      assert !HasTwin(snapshot, 0, [""]);
    }
  }

  // A file of one newline-terminated line: removing it leaves a blank line.
  lemma OnlyLineLeavesABlank(line: string)
    requires OneLine(line) && line != ""
    ensures var r := Repair(1, line, "", true);
            Applied(Split(line + "\n"), r) == ["", ""] && Patched(Split(line + "\n"), map[1 := r], 0) == [""]
  {
    var r := Repair(1, line, "", true);
    assert line + "\n" == line + "\n" + "";
    SplitCons(line, "");
    SplitOne("");
    assert Split(line + "\n") == [line, ""];
    assert [line, ""][..1] == [line];
    assert Count([line], line) == 1 by { assert [line][1..] == []; }
    assert Patched([line, ""], map[1 := r], 1) == Piece("", map[1 := r], 2) + Patched([line, ""], map[1 := r], 2);
  }

  // A replacement is applied unless an earlier plan had its line.
  lemma ReplacementIsApplied(snapshot: seq<string>, repairs: seq<Repair>, k: nat)
    requires Batch(snapshot, repairs) && k < |repairs| && !repairs[k].removeLine
    requires forall j | 0 <= j < k :: repairs[j].line != repairs[k].line
    ensures |ApplyAll(snapshot, repairs[..k + 1]).1| == k + 1 && ApplyAll(snapshot, repairs[..k + 1]).1[k]
  {
    var r, rest := repairs[k], repairs[..k];
    assert repairs[..k + 1] == rest + [r] && PlannedFrom(snapshot, r);
    BatchIsPatch(snapshot, rest);
    var (parts, applied) := ApplyAll(snapshot, rest);
    UnplannedStillFits(snapshot, parts, rest, applied, r);
    LastEdit(snapshot, rest, r, parts, applied);
  }

  lemma UnplannedStillFits(snapshot: seq<string>, parts: seq<string>, rest: seq<Repair>, applied: seq<bool>, r: Repair)
    requires |snapshot| >= 1 && |parts| >= 1 && |applied| == |rest|
    requires Progress(snapshot, parts, EditsOf(rest, applied), Lowest(snapshot, rest))
    requires PlannedFrom(snapshot, r) && r.line <= Lowest(snapshot, rest) && !r.removeLine
    requires forall j | 0 <= j < |rest| :: rest[j].line != r.line
    ensures Fits(parts, r)
  {
    EditLines(rest, applied, r.line);
    LineStands(snapshot, parts, EditsOf(rest, applied), Lowest(snapshot, rest), r);
  }

  lemma {:induction false} EditLines(repairs: seq<Repair>, applied: seq<bool>, line: int)
    requires |repairs| == |applied| && forall j | 0 <= j < |repairs| :: repairs[j].line != line
    ensures line !in EditsOf(repairs, applied)
  {
    if repairs != [] {
      EditLines(repairs[..|repairs| - 1], applied[..|repairs| - 1], line);
    }
  }

  // ------------------------------------------------------- one repair, by lines

  // The lines of a text: its parts without the empty one behind a final newline.
  function LinesOf(contents: string): seq<string> {
    var parts := Split(contents);
    if |contents| > 0 && contents[|contents| - 1] == '\n' then parts[..|parts| - 1] else parts
  }

  lemma {:induction false} CountOnce(lines: seq<string>, i: nat)
    requires i < |lines|
    ensures Count(lines, lines[i]) <= 1 <==> forall j | 0 <= j < |lines| && j != i :: lines[j] != lines[i]
  {
    var text := lines[i];
    var a, b := lines[..i], lines[i + 1..];
    assert lines == a + ([text] + b);
    CountConcat(a, [text] + b, text);
    CountConcat([text], b, text);
    CountOne(text);
    CountZero(a, text);
    CountZero(b, text);
    assert forall j | 0 <= j < i :: a[j] == lines[j];
    assert forall j | i < j < |lines| :: b[j - i - 1] == lines[j];
  }

  // A repair is made if its line is there and reads as planned and, to be
  // removed, reads like no other line.
  lemma FitsTells(contents: string, r: Repair)
    ensures var lines := LinesOf(contents);
            Fits(Split(contents), r)
            <==> 1 <= r.line <= |lines| && lines[r.line - 1] == r.original
                 && (r.removeLine ==> forall j | 0 <= j < |lines| && j != r.line - 1 :: lines[j] != r.original)
  {
    LastPartIsEmpty(contents);
    FitsLines(Split(contents), LinesOf(contents), r);
  }

  lemma FitsLines(parts: seq<string>, lines: seq<string>, r: Repair)
    requires |parts| >= 1 && lines == parts[..BodySize(parts)]
    ensures Fits(parts, r)
            <==> 1 <= r.line <= |lines| && lines[r.line - 1] == r.original
                 && (r.removeLine ==> forall j | 0 <= j < |lines| && j != r.line - 1 :: lines[j] != r.original)
  {
    if 1 <= r.line <= |lines| {
      CountOnce(lines, r.line - 1);
    }
  }

  // The text after it: the line replaced or gone, every other line and a final
  // newline as they were; without its only line a file keeps a blank one.
  lemma RepairTells(contents: string, out: string, r: Repair)
    requires OneLine(r.fixed) && 1 <= r.line <= |LinesOf(contents)|
    requires Fits(Split(contents), r) && Split(out) == Applied(Split(contents), r)
    ensures var after := EditedLines(LinesOf(contents), r);
            var ended := |contents| > 0 && contents[|contents| - 1] == '\n';
            Split(out) == (if after == [] then [""] else after) + (if ended then [""] else [])
  {
    PartsAreLines(contents);
    EditedParts(Split(contents), LinesOf(contents), EndsInNewline(contents), r);
  }

  lemma PartsAreLines(contents: string)
    ensures var lines := LinesOf(contents);
            Split(contents) == lines + (if EndsInNewline(contents) then [""] else [])
            && (!EndsInNewline(contents) ==> |lines| == 1 || lines[|lines| - 1] != "")
  {
    LastPartIsEmpty(contents);
  }

  function EditedLines(lines: seq<string>, r: Repair): seq<string>
    requires 1 <= r.line <= |lines|
  {
    if r.removeLine then lines[..r.line - 1] + lines[r.line..] else lines[r.line - 1 := r.fixed]
  }

  lemma EditedParts(parts: seq<string>, lines: seq<string>, ended: bool, r: Repair)
    requires 1 <= r.line <= |lines| && parts == lines + (if ended then [""] else []) && Fits(parts, r)
    requires !ended ==> |lines| == 1 || lines[|lines| - 1] != ""
    ensures var after := EditedLines(lines, r);
            Applied(parts, r) == (if after == [] then [""] else after) + (if ended then [""] else [])
  {
    var tail := if ended then [""] else [];
    assert BodySize(parts) == |lines|;
    assert parts[..r.line - 1] == lines[..r.line - 1] && parts[r.line..] == lines[r.line..] + tail;
    assert lines[..r.line - 1] + (lines[r.line..] + tail) == lines[..r.line - 1] + lines[r.line..] + tail;
  }
}
