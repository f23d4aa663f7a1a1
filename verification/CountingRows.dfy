/** What a tool's output comes to, told entry by entry and line by line. */
module CountingRows {
  import opened Chars
  import opened Counting
  import opened Options
  import opened Subsequences
  import opened Text
  import Messages

  // ---------------------------------------------------------------- entries

  // The entry has no file, no message and no rule.
  predicate Empty(e: Entry) {
    |e.file| == 0 && |e.message| == 0 && |e.rule| == 0
  }

  // Learned away by file, rule and message, or allowed by the project.
  predicate Let(policy: Policy, e: Entry) {
    policy.learned(e.file, e.rule, e.message) || policy.allowed(e.file, e.rule, e.message)
  }

  // Of a document's entries every one with a file, a message or a rule counts;
  // of these each is suppressed or kept, as often as it is there, in order.
  lemma EntriesTell(policy: Policy, es: seq<Entry>, e: Entry)
    ensures InOrder(Kept(policy, Real(es)), es) && InOrder(Dropped(policy, Real(es)), es)
    ensures multiset(Real(es))[e] == (if Empty(e) then 0 else multiset(es)[e])
    ensures multiset(Kept(policy, Real(es)))[e] == (if Empty(e) || Let(policy, e) then 0 else multiset(es)[e])
    ensures multiset(Dropped(policy, Real(es)))[e] == (if !Empty(e) && Let(policy, e) then multiset(es)[e] else 0)
  {
    RealIs(es, e);
    KeptIs(policy, Real(es), e);
    DroppedIs(policy, Real(es), e);
    InOrderTransitive(Kept(policy, Real(es)), Real(es), es);
    InOrderTransitive(Dropped(policy, Real(es)), Real(es), es);
  }

  lemma {:induction false} RealIs(es: seq<Entry>, e: Entry)
    ensures InOrder(Real(es), es)
    ensures multiset(Real(es))[e] == (if Empty(e) then 0 else multiset(es)[e])
  {
    if es != [] {
      var rest, x := es[..|es| - 1], es[|es| - 1];
      RealIs(rest, e);
      assert es == rest + [x];
      InOrderGrows(Real(rest), rest, x, !Empty(x));
    }
  }

  lemma {:induction false} KeptIs(policy: Policy, es: seq<Entry>, e: Entry)
    ensures InOrder(Kept(policy, es), es)
    ensures multiset(Kept(policy, es))[e] == (if Let(policy, e) then 0 else multiset(es)[e])
  {
    if es != [] {
      var rest, x := es[..|es| - 1], es[|es| - 1];
      KeptIs(policy, rest, e);
      assert es == rest + [x];
      InOrderGrows(Kept(policy, rest), rest, x, !Let(policy, x));
    }
  }

  lemma {:induction false} DroppedIs(policy: Policy, es: seq<Entry>, e: Entry)
    ensures InOrder(Dropped(policy, es), es)
    ensures multiset(Dropped(policy, es))[e] == (if Let(policy, e) then multiset(es)[e] else 0)
  {
    if es != [] {
      var rest, x := es[..|es| - 1], es[|es| - 1];
      DroppedIs(policy, rest, e);
      assert es == rest + [x];
      InOrderGrows(Dropped(policy, rest), rest, x, Let(policy, x));
    }
  }

  // What is reported of the entries counted: how many were suppressed, the
  // first 10,000 others with their own fields, and the first few as a preview.
  lemma RowsTell(policy: Policy, es: seq<Entry>, sampleCap: int)
    ensures var t := TallyOf(policy, es, sampleCap);
            var kept := Kept(policy, es);
            && t.suppressed + |kept| == |es| && (t.truncated <==> |kept| > 10_000)
            && |t.findings| == (if |kept| > 10_000 then 10_000 else |kept|)
            && |t.samples| == (if sampleCap <= 0 then 0 else if |kept| > sampleCap then sampleCap else |kept|)
            && (forall k | 0 <= k < |t.findings| :: Shows(t.findings[k].sample, kept[k])
                 && t.findings[k].fp == policy.fingerprint(kept[k].file, kept[k].rule, kept[k].message))
            && (forall k | 0 <= k < |t.samples| :: Shows(t.samples[k], kept[k]))
  {
    EntriesAreConserved(policy, es);
    var kept := Kept(policy, es);
    assert forall k | 0 <= k < |First(kept, MAX_FINDINGS)| :: First(kept, MAX_FINDINGS)[k] == kept[k];
    assert forall k | 0 <= k < |First(kept, sampleCap)| :: First(kept, sampleCap)[k] == kept[k];
  }

  // The row has the entry's own fields; only its message is cut.
  predicate Shows(row: Sample, e: Entry) {
    && row.file == e.file && row.line == e.line && row.rule == e.rule && row.severity == e.severity
    && row.message == Messages.Capped(e.message)
  }

  // ------------------------------------------------------------------- lines

  // The line is no location, or is only a note of mypy's.
  predicate Passed(reader: Reader, tool: string, line: string) {
    match reader.located(line)
    case None => true
    case Some(d) =>
      && tool == "mypy" && |d.message| >= 5
      && (d.message[0] == 'n' || d.message[0] == 'N') && (d.message[1] == 'o' || d.message[1] == 'O')
      && (d.message[2] == 't' || d.message[2] == 'T') && (d.message[3] == 'e' || d.message[3] == 'E')
      && d.message[4] == ':'
  }

  // The entry says what the line says; its rule is the tool.
  predicate Reads(reader: Reader, tool: string, line: string, e: Entry) {
    match reader.located(line)
    case None => false
    case Some(d) =>
      e.file == d.file && e.line == d.line && e.message == d.message && e.rule == tool
      && e.severity == reader.severity(d.message)
  }

  // The lines of a plain-text output that count, as often as they are there,
  // in order, and the entries read from them.
  lemma LinesTell(reader: Reader, tool: string, lines: seq<string>, line: string) returns (counted: seq<string>)
    ensures InOrder(counted, lines) && |Located(reader, tool, NonEmpty(lines))| == |counted|
    ensures multiset(counted)[line] == (if line == "" || Passed(reader, tool, line) then 0 else multiset(lines)[line])
    ensures forall k | 0 <= k < |counted| :: Reads(reader, tool, counted[k], Located(reader, tool, NonEmpty(lines))[k])
  {
    NonEmptyIs(lines, line);
    counted := LocatedIs(reader, tool, NonEmpty(lines), line);
    InOrderTransitive(counted, NonEmpty(lines), lines);
  }

  lemma {:induction false} NonEmptyIs(lines: seq<string>, line: string)
    ensures InOrder(NonEmpty(lines), lines)
    ensures multiset(NonEmpty(lines))[line] == (if line == "" then 0 else multiset(lines)[line])
  {
    if lines != [] {
      var rest, last := lines[..|lines| - 1], lines[|lines| - 1];
      NonEmptyIs(rest, line);
      assert lines == rest + [last];
      InOrderGrows(NonEmpty(rest), rest, last, last != "");
    }
  }

  lemma {:induction false} LocatedIs(reader: Reader, tool: string, lines: seq<string>, line: string)
    returns (counted: seq<string>)
    ensures InOrder(counted, lines) && |Located(reader, tool, lines)| == |counted|
    ensures multiset(counted)[line] == (if Passed(reader, tool, line) then 0 else multiset(lines)[line])
    ensures forall k | 0 <= k < |counted| :: Reads(reader, tool, counted[k], Located(reader, tool, lines)[k])
  {
    counted := [];
    if lines != [] {
      var rest, last := lines[..|lines| - 1], lines[|lines| - 1];
      var before := LocatedIs(reader, tool, rest, line);
      assert lines == rest + [last];
      NoteIs(reader, tool, last);
      var taken := !Passed(reader, tool, last);
      counted := if taken then before + [last] else before;
      InOrderGrows(before, rest, last, taken);
    }
  }

  lemma NoteIs(reader: Reader, tool: string, line: string)
    ensures Counts(reader, tool, line) <==> !Passed(reader, tool, line)
  {
  }

  // Refused, by a usage banner on one of the first eight lines, or given up.
  ghost predicate GaveUp(g: Grammar, tool: string, raw: string) {
    if g.isJson(tool) then g.document(raw).None? && g.abortMarker(raw)
    else exists k :: 0 <= k < 8 && k < |Split(raw)| && g.banner(Split(raw)[k])
  }

  // Which entries an output is counted from, and whether it says that the tool
  // gave up: nothing of blank output, of a refusal or of a broken document.
  lemma OutputTells(g: Grammar, tool: string, raw: string)
    ensures Aborted(g, tool, raw) <==> (exists k :: 0 <= k < |raw| && !IsSpace(raw[k])) && GaveUp(g, tool, raw)
    ensures var es := FindingEntries(g, tool, raw);
            && ((forall k | 0 <= k < |raw| :: IsSpace(raw[k])) || Aborted(g, tool, raw) ==> es == [])
            && (es != [] && g.isJson(tool) ==> g.document(raw).Some? && es == Real(g.document(raw).value))
            && (es != [] && !g.isJson(tool) ==> es == Located(g.reader, tool, NonEmpty(Split(raw))))
            && (!Blank(raw) && !g.isJson(tool) && !GaveUp(g, tool, raw)
                ==> es == Located(g.reader, tool, NonEmpty(Split(raw))))
            && (!Blank(raw) && g.isJson(tool) && g.document(raw).Some? ==> es == Real(g.document(raw).value))
  {
    if BannerAmong(g.banner, Split(raw), BANNER_LINES) {
      var k :| 0 <= k < |Split(raw)| && k < BANNER_LINES && g.banner(Split(raw)[k]);
    }
  }
}
