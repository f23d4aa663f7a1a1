/** A repair on the bytes of its file, and a batch of them. The whole file is
    decoded and written back, so a line that is not UTF-8 changes with any
    repair beside it, and a byte-order mark at the head of the file is lost by
    the first repair, whatever that one was for. */
module AutofixFile {
  import opened Options
  import opened Text
  import opened Utf8
  import opened Autofix
  import opened FileLines

  // ------------------------------------------------------------ one repair

  // Reads the file, repairs its text and writes the whole text back. `commits`
  // is whether the file can be read and written: the text goes to another file
  // that takes its place only when it is whole.
  method RepairFile(b: Bytes, r: Repair, commits: bool) returns (ok: bool, after: Bytes)
    requires OneLine(r.fixed)
    ensures ok == (commits && Fits(Split(FromUtf8(b)), r))
    ensures after == if ok then FileOf(Applied(Split(FromUtf8(b)), r)) else b
  {
    var fits, out := ApplyRepair(FromUtf8(b), r);
    ok := fits && commits;
    after := if ok then Encode(out) else b;
    JoinSplit(out);
  }

  function FileOf(parts: seq<string>): Bytes {
    Encode(Join(parts))
  }

  // Line i stays as it is when the file is read and written.
  predicate KeepsBytes(lines: seq<Bytes>, i: nat)
    requires i < |lines|
  {
    IsUtf8(lines[i]) && (i == 0 ==> !HasMark(lines[0]))
  }

  lemma LineReadsBack(lines: seq<Bytes>, i: nat)
    requires i < |lines|
    ensures Encode(TextOf(lines, i)) == lines[i] <==> KeepsBytes(lines, i)
  {
    if i == 0 {
      FileReadsBack(lines[0]);
    } else {
      BytesReadBack(lines[i]);
    }
  }

  // Where line i of the file is after the repair.
  function MovedTo(parts: seq<string>, r: Repair, i: nat): int
    requires |parts| >= 1
  {
    if r.removeLine && BodySize(parts) > 1 && i >= r.line then i - 1 else i
  }

  // A repair keeps the bytes of another line if and only if they are UTF-8,
  // with no mark at the head of the file.
  lemma OtherLineKeepsItsBytes(b: Bytes, r: Repair, i: nat)
    requires OneLine(r.fixed) && Fits(Split(FromUtf8(b)), r) && i < |ByteLines(b)| && i != r.line - 1
    ensures var parts := Split(FromUtf8(b));
            var after, j := ByteLines(FileOf(Applied(parts, r))), MovedTo(parts, r, i);
            0 <= j < |after| && (after[j] == ByteLines(b)[i] <==> KeepsBytes(ByteLines(b), i))
  {
    var parts := Split(FromUtf8(b));
    LinesRead(b);
    AppliedElsewhere(parts, r, i);
    LinesEncode(Applied(parts, r));
    LineReadsBack(ByteLines(b), i);
  }

  lemma AppliedElsewhere(parts: seq<string>, r: Repair, i: nat)
    requires |parts| >= 1 && AllOneLine(parts) && OneLine(r.fixed) && Fits(parts, r) && i < |parts| && i != r.line - 1
    ensures AllOneLine(Applied(parts, r))
    ensures 0 <= MovedTo(parts, r, i) < |Applied(parts, r)| && Applied(parts, r)[MovedTo(parts, r, i)] == parts[i]
  {
    assert OneLine("");
  }

  // ------------------------------------------------------------- the batch

  // The file after the repairs, each on the file as it then is.
  function RepairAll(b: Bytes, repairs: seq<Repair>): (Bytes, seq<bool>)
    decreases |repairs|
  {
    if repairs == [] then (b, [])
    else
      var r := repairs[|repairs| - 1];
      var before := RepairAll(b, repairs[..|repairs| - 1]);
      var parts := Split(FromUtf8(before.0));
      (if Fits(parts, r) then FileOf(Applied(parts, r)) else before.0, before.1 + [Fits(parts, r)])
  }

  // The same when some files cannot be read or written.
  function RepairSome(b: Bytes, repairs: seq<Repair>, commits: seq<bool>): (Bytes, seq<bool>)
    requires |commits| == |repairs|
    decreases |repairs|
  {
    if repairs == [] then (b, [])
    else
      var last := |repairs| - 1;
      var r := repairs[last];
      var before := RepairSome(b, repairs[..last], commits[..last]);
      var parts := Split(FromUtf8(before.0));
      var ok := commits[last] && Fits(parts, r);
      (if ok then FileOf(Applied(parts, r)) else before.0, before.1 + [ok])
  }

  method RepairBatch(b: Bytes, repairs: seq<Repair>, commits: seq<bool>) returns (after: Bytes, applied: seq<bool>)
    requires |commits| == |repairs| && forall k | 0 <= k < |repairs| :: OneLine(repairs[k].fixed)
    ensures (after, applied) == RepairSome(b, repairs, commits)
  {
    after, applied := b, [];
    var i := 0;
    while i < |repairs|
      invariant 0 <= i <= |repairs|
      invariant (after, applied) == RepairSome(b, repairs[..i], commits[..i])
    {
      assert repairs[..i + 1][..i] == repairs[..i] && commits[..i + 1][..i] == commits[..i];
      var ok;
      ok, after := RepairFile(after, repairs[i], commits[i]);
      applied := applied + [ok];
      i := i + 1;
    }
    assert repairs[..i] == repairs && commits[..i] == commits;
  }

  function Kept<T>(items: seq<T>, keep: seq<bool>): seq<T>
    requires |items| == |keep|
    decreases |items|
  {
    if items == [] then []
    else
      var last := |items| - 1;
      Kept(items[..last], keep[..last]) + if keep[last] then [items[last]] else []
  }

  ghost predicate NoneWithout(applied: seq<bool>, commits: seq<bool>) {
    |applied| == |commits| && forall k | 0 <= k < |commits| && !commits[k] :: !applied[k]
  }

  // A repair whose file cannot be written is reported as not applied and leaves
  // the batch as if it had not been asked for.
  ghost predicate SkipsFailures(b: Bytes, repairs: seq<Repair>, commits: seq<bool>)
    requires |commits| == |repairs|
  {
    var (after, applied) := RepairSome(b, repairs, commits);
    && NoneWithout(applied, commits)
    && RepairAll(b, Kept(repairs, commits)) == (after, Kept(applied, commits))
  }

  lemma {:induction false} FailedWritesAreSkipped(b: Bytes, repairs: seq<Repair>, commits: seq<bool>)
    requires |commits| == |repairs|
    ensures SkipsFailures(b, repairs, commits)
    decreases |repairs|
  {
    if repairs != [] {
      var last := |repairs| - 1;
      var rest, c := repairs[..last], commits[..last];
      assert rest + [repairs[last]] == repairs && c + [commits[last]] == commits;
      FailedWritesAreSkipped(b, rest, c);
      OneMoreWrite(b, rest, c, repairs[last], commits[last]);
    }
  }

  lemma OneMoreWrite(b: Bytes, rest: seq<Repair>, c: seq<bool>, r: Repair, commit: bool)
    requires |c| == |rest| && SkipsFailures(b, rest, c)
    ensures SkipsFailures(b, rest + [r], c + [commit])
  {
    var (before, applied) := RepairSome(b, rest, c);
    var ok := commit && Fits(Split(FromUtf8(before)), r);
    SomeButLast(b, rest, c, r, commit);
    NoneWithoutMore(applied, c, ok, commit);
    KeptOneMore(rest, c, r, commit);
    KeptOneMore(applied, c, ok, commit);
    AllButLast(b, Kept(rest, c), r);
  }

  lemma SomeButLast(b: Bytes, rest: seq<Repair>, c: seq<bool>, r: Repair, commit: bool)
    requires |c| == |rest|
    ensures var before := RepairSome(b, rest, c);
            var parts := Split(FromUtf8(before.0));
            var ok := commit && Fits(parts, r);
            RepairSome(b, rest + [r], c + [commit])
              == (if ok then FileOf(Applied(parts, r)) else before.0, before.1 + [ok])
  {
    assert (rest + [r])[..|rest|] == rest && (c + [commit])[..|c|] == c;
  }

  lemma NoneWithoutMore(applied: seq<bool>, c: seq<bool>, ok: bool, commit: bool)
    requires NoneWithout(applied, c) && (ok ==> commit)
    ensures NoneWithout(applied + [ok], c + [commit])
  {
  }

  lemma {:induction false} KeptAll<T>(items: seq<T>, keep: seq<bool>)
    requires |items| == |keep| && forall k | 0 <= k < |keep| :: keep[k]
    ensures Kept(items, keep) == items
    decreases |items|
  {
    if items != [] {
      KeptAll(items[..|items| - 1], keep[..|items| - 1]);
    }
  }

  lemma KeptOneMore<T>(items: seq<T>, keep: seq<bool>, item: T, last: bool)
    requires |items| == |keep|
    ensures Kept(items + [item], keep + [last]) == if last then Kept(items, keep) + [item] else Kept(items, keep)
  {
    assert (items + [item])[..|items|] == items && (keep + [last])[..|keep|] == keep;
  }

  lemma AllButLast(b: Bytes, rest: seq<Repair>, r: Repair)
    ensures var before := RepairAll(b, rest);
            var parts := Split(FromUtf8(before.0));
            RepairAll(b, rest + [r])
              == (if Fits(parts, r) then FileOf(Applied(parts, r)) else before.0, before.1 + [Fits(parts, r)])
  {
    assert (rest + [r])[..|rest|] == rest;
  }

  // ------------------------------------------------------- bytes and text

  ghost predicate OneLineFixes(repairs: seq<Repair>) {
    forall k | 0 <= k < |repairs| :: OneLine(repairs[k].fixed)
  }

  // What a read gives of a written text: a mark at its head is skipped.
  function Unmarked(parts: seq<string>): seq<string>
    requires |parts| >= 1
  {
    parts[0 := WithoutMark(parts[0])]
  }

  lemma SplitWithoutMark(s: string)
    ensures Split(WithoutMark(s)) == Unmarked(Split(s))
  {
    var parts := Split(s);
    JoinSplit(s);
    assert s == parts[0] || s == parts[0] + "\n" + Join(parts[1..]);
    assert StartsWithMark(s) <==> StartsWithMark(parts[0]);
    if StartsWithMark(s) {
      assert Unmarked(parts)[1..] == parts[1..];
      assert Join(Unmarked(parts)) == s[1..];
      assert OneLine(parts[0]);
    }
    SplitJoin(Unmarked(parts));
  }

  // The parts of the file, its mark among them.
  function Parts(b: Bytes): seq<string> {
    Split(Decode(b))
  }

  lemma ReadsUnmarked(b: Bytes)
    ensures Split(FromUtf8(b)) == Unmarked(Parts(b))
  {
    FromUtf8DropsTheMark(b);
    SplitWithoutMark(Decode(b));
  }

  lemma PartsOfFile(parts: seq<string>)
    requires |parts| >= 1 && AllOneLine(parts)
    ensures Parts(FileOf(parts)) == parts
  {
    DecodeEncode(Join(parts));
    SplitJoin(parts);
  }

  // A repair of the text is one of the file written before: line one does not
  // start with a mark, or the repair fits neither the line nor the line as read.
  ghost predicate SeesTheSame(parts: seq<string>, written: bool, r: Repair)
    requires |parts| >= 1
  {
    written && StartsWithMark(parts[0]) ==> !Fits(parts, r) && !Fits(Unmarked(parts), r)
  }

  // No line with a mark comes first while a later repair could tell.
  ghost predicate MarkIsHarmless(parts: seq<string>, repairs: seq<Repair>)
    requires |parts| >= 1
    decreases |repairs|
  {
    repairs == []
    || var r, rest := repairs[|repairs| - 1], repairs[..|repairs| - 1];
       var (before, applied) := ApplyAll(parts, rest);
       MarkIsHarmless(parts, rest) && |before| >= 1 && SeesTheSame(before, true in applied, r)
  }

  lemma {:induction false} ApplyAllKeepsOneLine(parts: seq<string>, repairs: seq<Repair>)
    requires |parts| >= 1 && AllOneLine(parts) && OneLineFixes(repairs)
    ensures var (after, applied) := ApplyAll(parts, repairs);
            |after| >= 1 && AllOneLine(after) && |applied| == |repairs|
    decreases |repairs|
  {
    if repairs != [] {
      ApplyAllKeepsOneLine(parts, repairs[..|repairs| - 1]);
      AppliedKeepsOneLine(ApplyAll(parts, repairs[..|repairs| - 1]).0, repairs[|repairs| - 1]);
    }
  }

  lemma AppliedKeepsOneLine(parts: seq<string>, r: Repair)
    requires |parts| >= 1 && AllOneLine(parts) && OneLine(r.fixed)
    ensures AllOneLine(Applied(parts, r))
  {
    assert OneLine("");
  }

  // The same parts, but for characters that line one lost.
  ghost predicate LostHead(parts: seq<string>, whole: seq<string>) {
    |parts| == |whole| >= 1 && parts[1..] == whole[1..] && |parts[0]| < |whole[0]|
  }

  lemma LostHeadStays(parts: seq<string>, whole: seq<string>, r: Repair)
    requires LostHead(parts, whole) && Fits(parts, r) && Fits(whole, r)
    ensures LostHead(Applied(parts, r), Applied(whole, r))
  {
    assert forall k | 1 <= k < |parts| :: parts[k] == parts[1..][k - 1] == whole[1..][k - 1] == whole[k];
    assert r.line >= 2;
    var a, b := Applied(parts, r), Applied(whole, r);
    assert forall k | 1 <= k < |a| :: a[k] == b[k];
  }

  // How the batch on bytes stands to the batch on the text.
  ghost predicate Together(b: Bytes, before: Bytes, parts: seq<string>, applied: seq<bool>, fits: seq<bool>) {
    && applied == fits
    && (if true in applied then before == FileOf(parts) else before == b && parts == Split(FromUtf8(b)))
  }

  ghost predicate Apart(before: Bytes, parts: seq<string>, applied: seq<bool>, fits: seq<bool>) {
    applied != fits || (true in applied && LostHead(Parts(before), parts))
  }

  lemma ReadOf(b: Bytes, before: Bytes, parts: seq<string>, applied: seq<bool>)
    requires |parts| >= 1 && AllOneLine(parts) && Together(b, before, parts, applied, applied)
    ensures Split(FromUtf8(before)) == if true in applied then Unmarked(parts) else parts
  {
    if true in applied {
      PartsOfFile(parts);
      ReadsUnmarked(before);
    }
  }

  lemma TogetherStep(b: Bytes, before: Bytes, parts: seq<string>, applied: seq<bool>, r: Repair)
    requires |parts| >= 1 && AllOneLine(parts) && OneLine(r.fixed) && Together(b, before, parts, applied, applied)
    ensures var read := Split(FromUtf8(before));
            var after := if Fits(read, r) then FileOf(Applied(read, r)) else before;
            var oks, fits := applied + [Fits(read, r)], applied + [Fits(parts, r)];
            if SeesTheSame(parts, true in applied, r) then Together(b, after, Applied(parts, r), oks, fits)
            else Apart(after, Applied(parts, r), oks, fits)
  {
    ReadOf(b, before, parts, applied);
    if SeesTheSame(parts, true in applied, r) {
      StaysTogether(b, before, parts, applied, Split(FromUtf8(before)), r);
    } else {
      GoesApart(before, parts, applied, r);
    }
  }

  lemma StaysTogether(b: Bytes, before: Bytes, parts: seq<string>, applied: seq<bool>, read: seq<string>, r: Repair)
    requires |parts| >= 1 && Together(b, before, parts, applied, applied) && SeesTheSame(parts, true in applied, r)
    requires read == if true in applied then Unmarked(parts) else parts
    ensures Fits(read, r) == Fits(parts, r)
    ensures Together(b, if Fits(read, r) then FileOf(Applied(read, r)) else before, Applied(parts, r),
                     applied + [Fits(read, r)], applied + [Fits(parts, r)])
  {
    TrueInMore(applied, Fits(read, r));
    if true in applied && StartsWithMark(parts[0]) {
      assert !Fits(read, r) && !Fits(parts, r);
    } else {
      assert read == parts;
    }
  }

  lemma TrueInMore(applied: seq<bool>, ok: bool)
    ensures true in applied + [ok] <==> true in applied || ok
  {
  }

  lemma GoesApart(before: Bytes, parts: seq<string>, applied: seq<bool>, r: Repair)
    requires |parts| >= 1 && AllOneLine(parts) && OneLine(r.fixed) && StartsWithMark(parts[0])
    requires Fits(parts, r) || Fits(Unmarked(parts), r)
    ensures var read := Unmarked(parts);
            Apart(if Fits(read, r) then FileOf(Applied(read, r)) else before, Applied(parts, r),
                  applied + [Fits(read, r)], applied + [Fits(parts, r)])
  {
    var read := Unmarked(parts);
    var oks, fits := applied + [Fits(read, r)], applied + [Fits(parts, r)];
    TrueInMore(applied, Fits(read, r));
    assert oks[|applied|] == Fits(read, r) && fits[|applied|] == Fits(parts, r);
    if oks == fits {
      assert read[1..] == parts[1..];
      LostHeadStays(read, parts, r);
      assert AllOneLine(read);
      AppliedKeepsOneLine(read, r);
      PartsOfFile(Applied(read, r));
    }
  }

  lemma ApartStep(before: Bytes, parts: seq<string>, applied: seq<bool>, fits: seq<bool>, r: Repair)
    requires |parts| >= 1 && |applied| == |fits| && OneLine(r.fixed) && Apart(before, parts, applied, fits)
    ensures var read := Split(FromUtf8(before));
            var after := if Fits(read, r) then FileOf(Applied(read, r)) else before;
            Apart(after, Applied(parts, r), applied + [Fits(read, r)], fits + [Fits(parts, r)])
  {
    var read := Split(FromUtf8(before));
    var oks, all := applied + [Fits(read, r)], fits + [Fits(parts, r)];
    assert oks[..|applied|] == applied && all[..|fits|] == fits;
    if oks == all {
      ReadsUnmarked(before);
      assert read[1..] == Parts(before)[1..];
      if Fits(read, r) {
        LostHeadStays(read, parts, r);
        AppliedKeepsOneLine(read, r);
        PartsOfFile(Applied(read, r));
      }
    }
  }

  lemma {:induction false} TogetherWhileHarmless(b: Bytes, repairs: seq<Repair>)
    requires OneLineFixes(repairs)
    ensures var (after, applied) := RepairAll(b, repairs);
            var (parts, fits) := ApplyAll(Split(FromUtf8(b)), repairs);
            && |applied| == |fits| == |repairs|
            && if MarkIsHarmless(Split(FromUtf8(b)), repairs) then Together(b, after, parts, applied, fits)
               else Apart(after, parts, applied, fits)
    decreases |repairs|
  {
    if repairs != [] {
      var r, rest := repairs[|repairs| - 1], repairs[..|repairs| - 1];
      var snapshot := Split(FromUtf8(b));
      TogetherWhileHarmless(b, rest);
      ApplyAllKeepsOneLine(snapshot, rest);
      var (before, applied) := RepairAll(b, rest);
      var (parts, fits) := ApplyAll(snapshot, rest);
      if MarkIsHarmless(snapshot, rest) {
        TogetherStep(b, before, parts, applied, r);
      } else {
        ApartStep(before, parts, applied, fits, r);
      }
    }
  }

  // The batch on the bytes applies what the batch on the text applies and
  // writes its text, once a repair was applied, if and only if no line with a
  // mark comes first while a later repair could tell.
  lemma BatchReadsText(b: Bytes, repairs: seq<Repair>)
    requires OneLineFixes(repairs)
    ensures var (after, applied) := RepairAll(b, repairs);
            var (parts, fits) := ApplyAll(Split(FromUtf8(b)), repairs);
            && (MarkIsHarmless(Split(FromUtf8(b)), repairs)
                <==> applied == fits && after == if true in applied then FileOf(parts) else b)
            && (MarkIsHarmless(Split(FromUtf8(b)), repairs) ==>
              |parts| >= 1 && Split(FromUtf8(after)) == if true in applied then Unmarked(parts) else parts)
  {
    var (after, applied) := RepairAll(b, repairs);
    var (parts, fits) := ApplyAll(Split(FromUtf8(b)), repairs);
    TogetherWhileHarmless(b, repairs);
    ApplyAllKeepsOneLine(Split(FromUtf8(b)), repairs);
    if MarkIsHarmless(Split(FromUtf8(b)), repairs) {
      ReadOf(b, after, parts, applied);
    } else if after == FileOf(parts) {
      PartsOfFile(parts);
    }
  }

  // A line, and another that reads so behind a mark. With line one gone, a
  // second plan for it does not fit the text; on the file it takes line two.
  lemma MarkedLineIsTaken(b: Bytes, r: Repair)
    requires b == Encode("x" + "\n" + [MARK, 'x']) && r == Repair(1, "x", "", true)
    ensures ApplyAll(Split(FromUtf8(b)), [r, r]) == ([[MARK, 'x']], [true, false])
    ensures RepairAll(b, [r, r]) == ([], [true, true])
  {
    MarkedIsRead(b);
    FirstIsUnique(r);
    TextTwice(["x", [MARK, 'x']], r);
    FileTwice(b, ["x", [MARK, 'x']], ["x"], r);
    assert FileOf([""]) == [];
  }

  lemma MarkedIsRead(b: Bytes)
    requires b == Encode("x" + "\n" + [MARK, 'x'])
    ensures Split(FromUtf8(b)) == ["x", [MARK, 'x']] && Split(FromUtf8(FileOf([[MARK, 'x']]))) == ["x"]
  {
    SplitOne([MARK, 'x']);
    SplitCons("x", [MARK, 'x']);
    ReadsBack("x" + "\n" + [MARK, 'x']);
    PartsOfFile([[MARK, 'x']]);
    ReadsUnmarked(FileOf([[MARK, 'x']]));
    assert [MARK, 'x'][1..] == "x";
  }

  lemma TextTwice(parts: seq<string>, r: Repair)
    requires |parts| >= 1
    ensures var once := Applied(parts, r);
            ApplyAll(parts, [r, r]) == (Applied(once, r), [Fits(parts, r), Fits(once, r)])
  {
    var once := Applied(parts, r);
    assert [r, r][..1] == [r] && [r][..0] == [];
    assert ApplyAll(parts, [r]) == (once, [] + [Fits(parts, r)]);
    assert [] + [Fits(parts, r)] + [Fits(once, r)] == [Fits(parts, r), Fits(once, r)];
  }

  lemma FileTwice(b: Bytes, parts: seq<string>, read: seq<string>, r: Repair)
    requires |parts| >= 1 && |read| >= 1 && Split(FromUtf8(b)) == parts && Fits(parts, r)
    requires Split(FromUtf8(FileOf(Applied(parts, r)))) == read && Fits(read, r)
    ensures RepairAll(b, [r, r]) == (FileOf(Applied(read, r)), [true, true])
  {
    assert [] + [r] == [r] && [] + [true] == [true] && [r] + [r] == [r, r] && [true] + [true] == [true, true];
    NextFits(b, [], r, b, [], parts);
    NextFits(b, [r], r, FileOf(Applied(parts, r)), [true], read);
  }

  lemma NextFits(b: Bytes, rest: seq<Repair>, r: Repair, before: Bytes, applied: seq<bool>, read: seq<string>)
    requires RepairAll(b, rest) == (before, applied) && Split(FromUtf8(before)) == read && Fits(read, r)
    ensures RepairAll(b, rest + [r]) == (FileOf(Applied(read, r)), applied + [true])
  {
    AllButLast(b, rest, r);
  }

  lemma FirstIsUnique(r: Repair)
    requires r == Repair(1, "x", "", true)
    ensures Fits(["x", [MARK, 'x']], r) && Applied(["x", [MARK, 'x']], r) == [[MARK, 'x']]
    ensures Fits(["x"], r) && Applied(["x"], r) == [""] && !Fits([[MARK, 'x']], r)
  {
    assert ["x", [MARK, 'x']][1..] == [[MARK, 'x']] && [[MARK, 'x']][1..] == [] && ["x"][1..] == [];
    assert Count([[MARK, 'x']], "x") == 0 && Count([], "x") == 0;
    assert ["x", [MARK, 'x']][..2] == ["x", [MARK, 'x']] && ["x"][..1] == ["x"];
  }

  // No line that a later read would take a mark off.
  ghost predicate NoMarks(parts: seq<string>) {
    forall k | 0 <= k < |parts| :: !StartsWithMark(parts[k])
  }

  ghost predicate PlainFixes(repairs: seq<Repair>) {
    forall k | 0 <= k < |repairs| :: OneLine(repairs[k].fixed) && !StartsWithMark(repairs[k].fixed)
  }

  lemma {:induction false} NoMarksAreHarmless(parts: seq<string>, repairs: seq<Repair>)
    requires |parts| >= 1 && NoMarks(parts) && PlainFixes(repairs)
    ensures MarkIsHarmless(parts, repairs) && |ApplyAll(parts, repairs).0| >= 1 && NoMarks(ApplyAll(parts, repairs).0)
    decreases |repairs|
  {
    if repairs != [] {
      NoMarksAreHarmless(parts, repairs[..|repairs| - 1]);
      assert !StartsWithMark("");
    }
  }

  // Without such lines the file always reads as the text of the batch.
  lemma BatchWithoutMarks(b: Bytes, repairs: seq<Repair>)
    requires NoMarks(Split(FromUtf8(b))) && PlainFixes(repairs)
    ensures var (after, applied) := RepairAll(b, repairs);
            var (parts, fits) := ApplyAll(Split(FromUtf8(b)), repairs);
            && applied == fits && Split(FromUtf8(after)) == parts && NoMarks(parts)
            && after == if true in applied then FileOf(parts) else b
  {
    NoMarksAreHarmless(Split(FromUtf8(b)), repairs);
    BatchReadsText(b, repairs);
    var parts := ApplyAll(Split(FromUtf8(b)), repairs).0;
    assert !StartsWithMark(parts[0]) && Unmarked(parts) == parts;
  }

  // ------------------------------------------------------- the file, patched

  // The file's own lines with one edit a line.
  function PatchedBytes(lines: seq<Bytes>, edits: map<int, Repair>, from: nat): seq<Bytes>
    requires from <= |lines|
    decreases |lines| - from
  {
    if from == |lines| then [] else BytePiece(lines[from], edits, from + 1) + PatchedBytes(lines, edits, from + 1)
  }

  function BytePiece(line: Bytes, edits: map<int, Repair>, number: int): seq<Bytes> {
    if number !in edits then [line] else if edits[number].removeLine then [] else [Encode(edits[number].fixed)]
  }

  ghost predicate UneditedKeep(lines: seq<Bytes>, edits: map<int, Repair>, from: nat) {
    forall i | from <= i < |lines| && i + 1 !in edits :: KeepsBytes(lines, i)
  }

  lemma SameParts<T>(a: seq<T>, b: seq<T>, c: seq<T>, d: seq<T>)
    requires |a| == |c|
    ensures a + b == c + d <==> a == c && b == d
  {
    assert (a + b)[..|a|] == a && (a + b)[|a|..] == b;
    assert (c + d)[..|c|] == c && (c + d)[|c|..] == d;
  }

  lemma PieceEncodes(lines: seq<Bytes>, edits: map<int, Repair>, i: nat)
    requires i < |lines|
    ensures var a, b := EncodeAll(Piece(TextOf(lines, i), edits, i + 1)), BytePiece(lines[i], edits, i + 1);
            |a| == |b| && (a == b <==> i + 1 in edits || KeepsBytes(lines, i))
  {
    LineReadsBack(lines, i);
    if i + 1 !in edits {
      assert EncodeAll([TextOf(lines, i)])[0] == Encode(TextOf(lines, i));
    }
  }

  // The patched text is the patched bytes exactly when every line that was
  // left alone reads back.
  lemma {:induction false} PatchedEncodes(snapshot: seq<string>, lines: seq<Bytes>, edits: map<int, Repair>, from: nat)
    requires from <= |snapshot| == |lines| && forall i | 0 <= i < |lines| :: snapshot[i] == TextOf(lines, i)
    ensures var a, b := EncodeAll(Patched(snapshot, edits, from)), PatchedBytes(lines, edits, from);
            |a| == |b| && (a == b <==> UneditedKeep(lines, edits, from))
    decreases |lines| - from
  {
    if from < |lines| {
      var text := Piece(snapshot[from], edits, from + 1);
      var rest := Patched(snapshot, edits, from + 1);
      var own := BytePiece(lines[from], edits, from + 1);
      var others := PatchedBytes(lines, edits, from + 1);
      PatchedEncodes(snapshot, lines, edits, from + 1);
      PieceEncodes(lines, edits, from);
      EncodeAllConcat(text, rest);
      SameParts(EncodeAll(text), EncodeAll(rest), own, others);
      KeepFrom(lines, edits, from);
    }
  }

  lemma KeepFrom(lines: seq<Bytes>, edits: map<int, Repair>, from: nat)
    requires from < |lines|
    ensures UneditedKeep(lines, edits, from)
       <==> (from + 1 in edits || KeepsBytes(lines, from)) && UneditedKeep(lines, edits, from + 1)
  {
  }

  lemma {:induction false} FileOfJoins(parts: seq<string>)
    ensures FileOf(parts) == JoinBytes(EncodeAll(parts))
  {
    if |parts| >= 2 {
      FileOfJoins(parts[1..]);
      EncodeNewline(parts[0], Join(parts[1..]));
      assert EncodeAll(parts)[1..] == EncodeAll(parts[1..]);
    }
  }

  ghost predicate NoNewlines(lines: seq<Bytes>) {
    forall k | 0 <= k < |lines| :: NEWLINE !in lines[k]
  }

  lemma JoinIsInjective(a: seq<Bytes>, b: seq<Bytes>)
    requires |a| == |b| && NoNewlines(a) && NoNewlines(b)
    ensures JoinBytes(a) == JoinBytes(b) <==> a == b
  {
    if a != [] {
      ByteLinesOfJoin(a);
      ByteLinesOfJoin(b);
    }
  }

  lemma {:induction false} PatchedHasNoNewlines(snapshot: seq<string>, lines: seq<Bytes>, edits: map<int, Repair>,
      from: nat)
    requires from <= |snapshot| == |lines| && AllOneLine(snapshot) && NoNewlines(lines)
    requires forall n | n in edits :: OneLine(edits[n].fixed)
    ensures NoNewlines(EncodeAll(Patched(snapshot, edits, from))) && NoNewlines(PatchedBytes(lines, edits, from))
    decreases |lines| - from
  {
    if from < |lines| {
      PatchedHasNoNewlines(snapshot, lines, edits, from + 1);
      assert OneLine(snapshot[from]);
      EncodeAllConcat(Piece(snapshot[from], edits, from + 1), Patched(snapshot, edits, from + 1));
      PieceHasNoNewlines(snapshot[from], edits, from + 1);
      NoNewlinesConcat(EncodeAll(Piece(snapshot[from], edits, from + 1)),
          EncodeAll(Patched(snapshot, edits, from + 1)));
      NoNewlinesConcat(BytePiece(lines[from], edits, from + 1), PatchedBytes(lines, edits, from + 1));
    }
  }

  lemma NoNewlinesConcat(a: seq<Bytes>, b: seq<Bytes>)
    requires NoNewlines(a) && NoNewlines(b)
    ensures NoNewlines(a + b)
  {
  }

  lemma PieceHasNoNewlines(text: string, edits: map<int, Repair>, number: int)
    requires OneLine(text) && (number in edits ==> OneLine(edits[number].fixed))
    ensures NoNewlines(EncodeAll(Piece(text, edits, number)))
    ensures number in edits ==> NEWLINE !in Encode(edits[number].fixed)
  {
    EncodedHasNoNewline(text);
    if number in edits {
      EncodedHasNoNewline(edits[number].fixed);
    }
  }

  lemma TextWritten(contents: string, repairs: seq<Repair>, parts: seq<string>, applied: seq<bool>)
    requires Batch(Split(contents), repairs) && |parts| >= 1 && AllOneLine(parts)
    requires (parts, applied) == ApplyAll(Split(contents), repairs)
    ensures FileOf(parts) == if BlankStays(Split(contents), repairs) then [NEWLINE]
            else FileOf(Outcome(Split(contents), repairs, 0))
  {
    SplitJoin(parts);
    BatchText(contents, repairs, Join(parts), applied);
    assert "\n"[1..] == "" && Encode("\n") == [NEWLINE];
  }

  lemma BatchWrites(b: Bytes, repairs: seq<Repair>, snapshot: seq<string>)
    requires snapshot == Split(FromUtf8(b)) && Batch(snapshot, repairs) && MarkIsHarmless(snapshot, repairs)
    requires true in RepairAll(b, repairs).1
    ensures RepairAll(b, repairs).0 == if BlankStays(snapshot, repairs) then [NEWLINE]
            else FileOf(Outcome(snapshot, repairs, 0))
  {
    assert OneLineFixes(repairs);
    BatchReadsText(b, repairs);
    ApplyAllKeepsOneLine(snapshot, repairs);
    var (parts, fits) := ApplyAll(snapshot, repairs);
    TextWritten(FromUtf8(b), repairs, parts, fits);
  }

  // The batch leaves the file with its own lines patched, byte for byte, if
  // and only if every line it had no edit for reads back.
  lemma BatchIsPatchedFile(b: Bytes, repairs: seq<Repair>)
    requires Batch(Split(FromUtf8(b)), repairs) && MarkIsHarmless(Split(FromUtf8(b)), repairs)
    requires true in RepairAll(b, repairs).1
    ensures var (after, applied) := RepairAll(b, repairs);
            && |applied| == |repairs|
            && var edits := EditsOf(repairs, applied);
            && (BlankStays(Split(FromUtf8(b)), repairs) ==> after == [NEWLINE])
            && (!BlankStays(Split(FromUtf8(b)), repairs) ==>
              (after == JoinBytes(PatchedBytes(ByteLines(b), edits, 0)) <==> UneditedKeep(ByteLines(b), edits, 0)))
  {
    var snapshot := Split(FromUtf8(b));
    var applied := RepairAll(b, repairs).1;
    BatchReadsText(b, repairs);
    BatchWrites(b, repairs, snapshot);
    EditsArePlanned(snapshot, repairs);
    BatchIsPatch(snapshot, repairs);
    var edits := EditsOf(repairs, applied);
    OutcomeIsPatched(snapshot, repairs, edits, 0);
    LinesRead(b);
    PatchedBytesAgree(snapshot, ByteLines(b), edits);
  }

  lemma PatchedBytesAgree(snapshot: seq<string>, lines: seq<Bytes>, edits: map<int, Repair>)
    requires |snapshot| == |lines| && forall i | 0 <= i < |lines| :: snapshot[i] == TextOf(lines, i)
    requires AllOneLine(snapshot) && NoNewlines(lines) && forall n | n in edits :: OneLine(edits[n].fixed)
    ensures FileOf(Patched(snapshot, edits, 0)) == JoinBytes(PatchedBytes(lines, edits, 0))
            <==> UneditedKeep(lines, edits, 0)
  {
    PatchedEncodes(snapshot, lines, edits, 0);
    PatchedHasNoNewlines(snapshot, lines, edits, 0);
    JoinIsInjective(EncodeAll(Patched(snapshot, edits, 0)), PatchedBytes(lines, edits, 0));
    FileOfJoins(Patched(snapshot, edits, 0));
  }

  // A file is read and written back as it was exactly when all its lines are.
  lemma FileKeepsBytes(b: Bytes)
    ensures Encode(FromUtf8(b)) == b <==> forall i | 0 <= i < |ByteLines(b)| :: KeepsBytes(ByteLines(b), i)
  {
    var lines, snapshot := ByteLines(b), Split(FromUtf8(b));
    LinesRead(b);
    JoinSplit(FromUtf8(b));
    PatchedBytesAgree(snapshot, lines, map[]);
    NothingPatched(snapshot, lines);
    JoinOfByteLines(b);
  }

  lemma NothingPatched(snapshot: seq<string>, lines: seq<Bytes>)
    ensures Patched(snapshot, map[], 0) == snapshot && PatchedBytes(lines, map[], 0) == lines
    ensures UneditedKeep(lines, map[], 0) <==> forall i | 0 <= i < |lines| :: KeepsBytes(lines, i)
  {
    UntouchedPrefix(snapshot, map[], 0, |snapshot|);
    assert snapshot[0..|snapshot|] == snapshot;
    UntouchedBytes(lines, 0);
    assert lines[0..] == lines;
  }

  lemma {:induction false} UntouchedBytes(lines: seq<Bytes>, from: nat)
    requires from <= |lines|
    ensures PatchedBytes(lines, map[], from) == lines[from..]
    decreases |lines| - from
  {
    if from < |lines| {
      UntouchedBytes(lines, from + 1);
      assert lines[from..] == [lines[from]] + lines[from + 1..];
    }
  }

  // A stray byte on line one, a comment spaced on line two: the stray byte
  // comes back as the three bytes of U+FFFD.
  lemma StrayByteIsRewritten(b: Bytes, r: Repair)
    requires b == [0xFF, NEWLINE] + Encode("//x") && r == Repair(2, "//x", "// x", false)
    ensures RepairAll(b, [r]) == (Encode([REPLACEMENT]) + [NEWLINE] + Encode("// x"), [true])
  {
    var parts := [[REPLACEMENT], "//x"];
    StrayText(b);
    assert Fits(parts, r) && Applied(parts, r) == [[REPLACEMENT], "// x"];
    assert Join([[REPLACEMENT], "// x"]) == [REPLACEMENT] + "\n" + "// x";
    EncodeNewline([REPLACEMENT], "// x");
    assert [r][..0] == [] && RepairAll(b, []) == (b, []);
    assert RepairAll(b, [r]).1 == [] + [true] == [true];
    assert RepairAll(b, [r]).0 == FileOf([[REPLACEMENT], "// x"]);
    assert FileOf([[REPLACEMENT], "// x"]) == Encode([REPLACEMENT] + "\n" + "// x");
  }

  lemma StrayText(b: Bytes)
    requires b == [0xFF, NEWLINE] + Encode("//x")
    ensures Split(FromUtf8(b)) == [[REPLACEMENT], "//x"]
  {
    assert b == [0xFF] + [NEWLINE] + Encode("//x");
    DecodeBeforeNewline([0xFF], Encode("//x"));
    DecodeEncode("//x");
    StrayIsReplacement();
    SplitCons([REPLACEMENT], "//x");
    SplitOne("//x");
  }

  lemma StrayIsReplacement()
    ensures Decode([0xFF]) == [REPLACEMENT]
  {
    assert Decode([]) == "";
  }
}
