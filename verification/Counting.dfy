/** Counting one tool's output, JSON or text: suppressed findings dropped,
    the rest kept up to a cap, the first few previewed. */
module Counting {
  import opened Chars
  import opened Options
  import opened Text
  import Messages

  const MAX_FINDINGS: nat := 10_000
  const BANNER_LINES: nat := 8

  // What a JSON entry or a diagnostic line says.
  datatype Entry = Entry(file: string, line: int, message: string, rule: string, severity: string)

  // A row of the envelope: the entry with its message capped.
  datatype Sample = Sample(file: string, line: int, message: string, rule: string, severity: string)

  datatype Finding = Finding(sample: Sample, fp: string)

  // `learned`: the false-positive ledger; `allowed`: the project's allowlist;
  // both, like the fingerprint, see file, rule and message.
  datatype Policy = Policy(
    learned: (string, string, string) -> bool,
    allowed: (string, string, string) -> bool,
    fingerprint: (string, string, string) -> string)

  datatype Tally = Tally(suppressed: nat, samples: seq<Sample>, findings: seq<Finding>, truncated: bool)

  // ------------------------------------------------------------ specification

  predicate Placeholder(e: Entry) {
    e.file == "" && e.message == "" && e.rule == ""
  }

  predicate Suppressed(policy: Policy, e: Entry) {
    policy.learned(e.file, e.rule, e.message) || policy.allowed(e.file, e.rule, e.message)
  }

  function SampleOf(e: Entry): Sample {
    Sample(e.file, e.line, Messages.Capped(e.message), e.rule, e.severity)
  }

  function FindingOf(policy: Policy, e: Entry): Finding {
    Finding(SampleOf(e), policy.fingerprint(e.file, e.rule, e.message))
  }

  function Real(es: seq<Entry>): seq<Entry> {
    if es == [] then []
    else
      var last := es[|es| - 1];
      var rest := Real(es[..|es| - 1]);
      if Placeholder(last) then rest else rest + [last]
  }

  function Dropped(policy: Policy, es: seq<Entry>): seq<Entry> {
    if es == [] then []
    else
      var last := es[|es| - 1];
      var rest := Dropped(policy, es[..|es| - 1]);
      if Suppressed(policy, last) then rest + [last] else rest
  }

  function Kept(policy: Policy, es: seq<Entry>): seq<Entry> {
    if es == [] then []
    else
      var last := es[|es| - 1];
      var rest := Kept(policy, es[..|es| - 1]);
      if Suppressed(policy, last) then rest else rest + [last]
  }

  function Samples(es: seq<Entry>): (ss: seq<Sample>)
    ensures |ss| == |es|
    ensures forall k | 0 <= k < |es| :: ss[k] == SampleOf(es[k])
  {
    if es == [] then [] else Samples(es[..|es| - 1]) + [SampleOf(es[|es| - 1])]
  }

  function Findings(policy: Policy, es: seq<Entry>): (fs: seq<Finding>)
    ensures |fs| == |es|
    ensures forall k | 0 <= k < |es| :: fs[k] == FindingOf(policy, es[k])
  {
    if es == [] then [] else Findings(policy, es[..|es| - 1]) + [FindingOf(policy, es[|es| - 1])]
  }

  function First<T>(s: seq<T>, cap: int): (p: seq<T>)
    ensures p <= s && (p == s || |p| == cap || (p == [] && cap < 0))
  {
    if |s| <= cap then s else if cap < 0 then [] else s[..cap]
  }

  // The tally of findings proper: no placeholder among them.
  function TallyOf(policy: Policy, es: seq<Entry>, sampleCap: int): Tally {
    var kept := Kept(policy, es);
    Tally(|Dropped(policy, es)|, Samples(First(kept, sampleCap)),
          Findings(policy, First(kept, MAX_FINDINGS)), |kept| > MAX_FINDINGS)
  }

  // ------------------------------------------------------------------- loops

  // Counting one entry that is not a placeholder.
  method Count(policy: Policy, e: Entry, sampleCap: int, t: Tally, ghost es: seq<Entry>) returns (r: Tally)
    requires t == TallyOf(policy, es, sampleCap)
    ensures r == TallyOf(policy, es + [e], sampleCap)
  {
    if policy.learned(e.file, e.rule, e.message) {
      r := t.(suppressed := t.suppressed + 1);
    } else if policy.allowed(e.file, e.rule, e.message) {
      r := t.(suppressed := t.suppressed + 1);
    } else {
      r := t;
      var s := SampleOf(e);
      if |r.findings| < MAX_FINDINGS {
        r := r.(findings := r.findings + [Finding(s, policy.fingerprint(e.file, e.rule, e.message))]);
      } else {
        r := r.(truncated := true);
      }
      if |r.samples| < sampleCap {
        r := r.(samples := r.samples + [s]);
      }
    }
    CountOne(policy, es, e, sampleCap);
  }

  lemma FirstGrows<T>(s: seq<T>, x: T, cap: int)
    ensures First(s + [x], cap) == if |First(s, cap)| < cap then First(s, cap) + [x] else First(s, cap)
  {
  }

  lemma SamplesGrow(es: seq<Entry>, e: Entry)
    ensures Samples(es + [e]) == Samples(es) + [SampleOf(e)]
  {
    assert (es + [e])[..|es|] == es;
  }

  lemma FindingsGrow(policy: Policy, es: seq<Entry>, e: Entry)
    ensures Findings(policy, es + [e]) == Findings(policy, es) + [FindingOf(policy, e)]
  {
    assert (es + [e])[..|es|] == es;
  }

  lemma CountOne(policy: Policy, es: seq<Entry>, e: Entry, sampleCap: int)
    ensures var t, u := TallyOf(policy, es, sampleCap), TallyOf(policy, es + [e], sampleCap);
            u == if Suppressed(policy, e) then t.(suppressed := t.suppressed + 1)
                 else Tally(t.suppressed,
                            if |t.samples| < sampleCap then t.samples + [SampleOf(e)] else t.samples,
                            if |t.findings| < MAX_FINDINGS then t.findings + [FindingOf(policy, e)] else t.findings,
                            t.truncated || |t.findings| >= MAX_FINDINGS)
  {
    assert (es + [e])[..|es|] == es;
    var kept := Kept(policy, es);
    if Suppressed(policy, e) {
      assert Kept(policy, es + [e]) == kept;
    } else {
      assert Kept(policy, es + [e]) == kept + [e];
      FirstGrows(kept, e, sampleCap);
      FirstGrows(kept, e, MAX_FINDINGS);
      SamplesGrow(First(kept, sampleCap), e);
      FindingsGrow(policy, First(kept, MAX_FINDINGS), e);
    }
  }

  lemma RealGrows(es: seq<Entry>, i: nat)
    requires i < |es|
    ensures Real(es[..i + 1]) == if Placeholder(es[i]) then Real(es[..i]) else Real(es[..i]) + [es[i]]
  {
    assert es[..i + 1][..i] == es[..i];
  }

  // A JSON tool's entries. Placeholders count for nothing; the raw count is
  // clamped to the finding cap, the suppressed count is not.
  method CountEntries(policy: Policy, es: seq<Entry>, sampleCap: int) returns (rawCount: int, t: Tally)
    ensures t == TallyOf(policy, Real(es), sampleCap)
    ensures rawCount == if |Real(es)| > MAX_FINDINGS then MAX_FINDINGS else |Real(es)|
  {
    var emptyEntries := 0;
    t := Tally(0, [], [], false);
    ghost var genuine: seq<Entry> := [];
    for i := 0 to |es|
      invariant genuine == Real(es[..i])
      invariant t == TallyOf(policy, genuine, sampleCap)
      invariant emptyEntries == i - |genuine|
    {
      var e := es[i];
      RealGrows(es, i);
      if Placeholder(e) {
        emptyEntries := emptyEntries + 1;
      } else {
        t := Count(policy, e, sampleCap, t, genuine);
        genuine := genuine + [e];
      }
    }
    assert es[..|es|] == es;
    rawCount := |es| - emptyEntries;
    if rawCount > MAX_FINDINGS {
      rawCount := MAX_FINDINGS;
    }
  }

  // ------------------------------------------------------- plain-text output

  datatype Diagnostic = Diagnostic(file: string, line: int, message: string)

  // How a tool's lines are read: `located` picks `file:line: message` lines
  // apart, `failure` is the parse failure a message reports, if it does.
  datatype Reader = Reader(
    located: string -> Option<Diagnostic>,
    severity: string -> string,
    failure: string -> Option<string>)

  datatype Failures = Failures(files: seq<string>, reasons: map<string, string>)

  predicate Letter(c: char, lower: char) {
    c == lower || ('a' <= lower <= 'z' && c as int == lower as int - 32)
  }

  // The message starts with "note:", in either case.
  predicate IsNote(s: string) {
    |s| >= 5 && Letter(s[0], 'n') && Letter(s[1], 'o') && Letter(s[2], 't') && Letter(s[3], 'e') && s[4] == ':'
  }

  predicate Counts(reader: Reader, tool: string, line: string) {
    reader.located(line).Some? && !(tool == "mypy" && IsNote(reader.located(line).value.message))
  }

  // The diagnostics that count, in order; line-based tools key on their name.
  function Located(reader: Reader, tool: string, lines: seq<string>): seq<Entry> {
    if lines == [] then []
    else
      var last := lines[|lines| - 1];
      var rest := Located(reader, tool, lines[..|lines| - 1]);
      if Counts(reader, tool, last) then rest + [EntryOf(reader, tool, last)] else rest
  }

  function EntryOf(reader: Reader, tool: string, line: string): Entry
    requires reader.located(line).Some?
  {
    var d := reader.located(line).value;
    Entry(d.file, d.line, d.message, tool, reader.severity(d.message))
  }

  function NonEmpty(lines: seq<string>): seq<string> {
    if lines == [] then []
    else
      var rest := NonEmpty(lines[..|lines| - 1]);
      if lines[|lines| - 1] == "" then rest else rest + [lines[|lines| - 1]]
  }

  // A file is listed at its first failing diagnostic, with that one's reason.
  function FailuresOf(reader: Reader, es: seq<Entry>): Failures {
    if es == [] then Failures([], map[])
    else NoteFailure(reader, FailuresOf(reader, es[..|es| - 1]), es[|es| - 1].file, es[|es| - 1].message)
  }

  function NoteFailure(reader: Reader, f: Failures, file: string, message: string): Failures {
    var reason := reader.failure(message);
    if reason.Some? && file !in f.files then Failures(f.files + [file], f.reasons[file := reason.value]) else f
  }

  lemma LocatedGrows(reader: Reader, tool: string, lines: seq<string>, i: nat)
    requires i < |lines|
    ensures Located(reader, tool, lines[..i + 1])
            == if Counts(reader, tool, lines[i]) then
                Located(reader, tool, lines[..i]) + [EntryOf(reader, tool, lines[i])]
               else Located(reader, tool, lines[..i])
  {
    assert lines[..i + 1][..i] == lines[..i];
  }

  lemma FailuresGrow(reader: Reader, es: seq<Entry>, e: Entry)
    ensures FailuresOf(reader, es + [e]) == NoteFailure(reader, FailuresOf(reader, es), e.file, e.message)
  {
    assert (es + [e])[..|es|] == es;
  }

  method CountLines(policy: Policy, reader: Reader, tool: string, lines: seq<string>, sampleCap: int)
    returns (rawCount: int, t: Tally, failures: Failures)
    ensures t == TallyOf(policy, Located(reader, tool, lines), sampleCap)
    ensures rawCount == |Located(reader, tool, lines)|
    ensures failures == if tool == "cppcheck" then FailuresOf(reader, Located(reader, tool, lines))
            else Failures([], map[])
  {
    var located := 0;
    t, failures := Tally(0, [], [], false), Failures([], map[]);
    assert t == TallyOf(policy, [], sampleCap);
    for i := 0 to |lines|
      invariant located == |Located(reader, tool, lines[..i])|
      invariant t == TallyOf(policy, Located(reader, tool, lines[..i]), sampleCap)
      invariant failures == if tool == "cppcheck" then FailuresOf(reader, Located(reader, tool, lines[..i]))
                            else Failures([], map[])
    {
      ghost var before := Located(reader, tool, lines[..i]);
      LocatedGrows(reader, tool, lines, i);
      var m := reader.located(lines[i]);
      if m == None { continue; }
      var d := m.value;
      if tool == "mypy" && IsNote(d.message) { continue; }
      var e := Entry(d.file, d.line, d.message, tool, reader.severity(d.message));
      FailuresGrow(reader, before, e);
      if tool == "cppcheck" {
        var reason := reader.failure(d.message);
        if reason.Some? && d.file !in failures.files {
          failures := Failures(failures.files + [d.file], failures.reasons[d.file := reason.value]);
        }
      }
      located := located + 1;
      t := Count(policy, e, sampleCap, t, before);
    }
    assert lines[..|lines|] == lines;
    rawCount := located;
  }

  // A usage banner opens the output: one of its first lines looks like one.
  // The text is walked line by line, not split whole.
  method HasUsageBanner(banner: string -> bool, raw: string) returns (found: bool)
    ensures found <==> BannerAmong(banner, Split(raw), BANNER_LINES)
  {
    var pos, i := 0, 0;
    ghost var there := BannerAmong(banner, Split(raw), BANNER_LINES);
    ghost var rest := LinesFrom(raw, pos);
    assert raw[0..] == raw;
    while i < BANNER_LINES && pos <= |raw|
      invariant i <= BANNER_LINES && rest == LinesFrom(raw, pos)
      invariant there <==> BannerAmong(banner, rest, BANNER_LINES - i)
      decreases BANNER_LINES - i
    {
      var nl := LineEnd(raw, pos);
      ghost var after := LinesFrom(raw, nl + 1);
      NextLineFrom(raw, pos, nl, rest, after);
      AmongCons(banner, raw[pos..nl], after, BANNER_LINES - i);
      if banner(raw[pos..nl]) {
        return true;
      }
      rest := after;
      pos := nl + 1;
      i := i + 1;
    }
    found := false;
  }

  // One of the first lines looks like a banner.
  ghost predicate BannerAmong(banner: string -> bool, lines: seq<string>, limit: int) {
    exists k :: 0 <= k < |lines| && k < limit && banner(lines[k])
  }

  lemma AmongCons(banner: string -> bool, line: string, rest: seq<string>, limit: int)
    requires limit > 0
    ensures BannerAmong(banner, [line] + rest, limit) <==> banner(line) || BannerAmong(banner, rest, limit - 1)
  {
    var lines := [line] + rest;
    assert lines[0] == line;
    assert forall k | 0 <= k < |rest| :: lines[k + 1] == rest[k];
    assert forall k | 0 < k < |lines| :: lines[k] == rest[k - 1];
  }

  // ------------------------------------------------------------ whole output

  // What is fixed about a run: which tools print JSON, how a document is found
  // in the stream and flattened into entries, and the two give-away texts.
  datatype Grammar = Grammar(
    isJson: string -> bool,
    document: string -> Option<seq<Entry>>,
    abortMarker: string -> bool,
    banner: string -> bool,
    reader: Reader)

  datatype ParsedOutput = ParsedOutput(rawCount: int, tally: Tally, failures: Failures, aborted: bool)

  const NOTHING := ParsedOutput(0, Tally(0, [], [], false), Failures([], map[]), false)

  // The entries of the output that are findings, suppressed ones included.
  ghost function FindingEntries(g: Grammar, tool: string, raw: string): seq<Entry> {
    if Blank(raw) then []
    else if g.isJson(tool) then
      var document := g.document(raw);
      if document.Some? then Real(document.value) else []
    else if BannerAmong(g.banner, Split(raw), BANNER_LINES) then []
    else Located(g.reader, tool, NonEmpty(Split(raw)))
  }

  ghost predicate Aborted(g: Grammar, tool: string, raw: string) {
    !Blank(raw)
    && if g.isJson(tool) then g.document(raw) == None && g.abortMarker(raw)
         else BannerAmong(g.banner, Split(raw), BANNER_LINES)
  }

  method ParseToolOutput(g: Grammar, policy: Policy, tool: string, raw: string, sampleCap: int)
    returns (p: ParsedOutput)
    ensures p.tally == TallyOf(policy, FindingEntries(g, tool, raw), sampleCap)
    ensures p.rawCount == if g.isJson(tool) && |FindingEntries(g, tool, raw)| > MAX_FINDINGS then MAX_FINDINGS
                          else |FindingEntries(g, tool, raw)|
    ensures p.failures == if tool == "cppcheck" && !g.isJson(tool)
                          then FailuresOf(g.reader, FindingEntries(g, tool, raw)) else Failures([], map[])
    ensures p.aborted <==> Aborted(g, tool, raw)
    ensures p.aborted ==> p == NOTHING.(aborted := true)
    ensures Blank(raw) ==> p == NOTHING
  {
    p := NOTHING;
    assert NOTHING.tally == TallyOf(policy, [], sampleCap);
    if Blank(raw) { return; }
    if !g.isJson(tool) {
      var refused := HasUsageBanner(g.banner, raw);
      if refused {
        return p.(aborted := true);
      }
    }
    if g.isJson(tool) {
      var document := g.document(raw);
      if document.Some? {
        var n, t := CountEntries(policy, document.value, sampleCap);
        return ParsedOutput(n, t, NOTHING.failures, false);
      }
      return p.(aborted := g.abortMarker(raw));
    }
    var n, t, failures := CountLines(policy, g.reader, tool, NonEmpty(Split(raw)), sampleCap);
    p := ParsedOutput(n, t, failures, false);
  }

  // ----------------------------------------------------------------- results

  // Nothing is lost or counted twice: each entry is suppressed or kept.
  lemma {:induction false} EntriesAreConserved(policy: Policy, es: seq<Entry>)
    ensures multiset(Dropped(policy, es)) + multiset(Kept(policy, es)) == multiset(es)
    ensures |Dropped(policy, es)| + |Kept(policy, es)| == |es|
  {
    if es != [] {
      var rest, last := es[..|es| - 1], es[|es| - 1];
      assert es == rest + [last];
      EntriesAreConserved(policy, rest);
    }
  }

  // The count after filtering is the number kept exactly while the raw count
  // was not clamped; past the clamp it can fall below zero.
  lemma AfterFilterIsKept(policy: Policy, es: seq<Entry>, sampleCap: int, rawCount: int)
    requires rawCount == if |es| > MAX_FINDINGS then MAX_FINDINGS else |es|
    ensures var t := TallyOf(policy, es, sampleCap);
            && (rawCount - t.suppressed == |Kept(policy, es)| <==> |es| <= MAX_FINDINGS)
            && (rawCount - t.suppressed < 0 <==> t.suppressed > MAX_FINDINGS)
  {
    EntriesAreConserved(policy, es);
  }

  // One entry past the clamp, all of them learned away, and the count reads -1.
  lemma CountGoesNegative(policy: Policy, es: seq<Entry>, sampleCap: int)
    requires |es| == MAX_FINDINGS + 1 && forall k | 0 <= k < |es| :: Suppressed(policy, es[k])
    ensures MAX_FINDINGS - TallyOf(policy, es, sampleCap).suppressed == -1
  {
    NoneKept(policy, es);
    EntriesAreConserved(policy, es);
  }

  lemma {:induction false} NoneKept(policy: Policy, es: seq<Entry>)
    requires forall k | 0 <= k < |es| :: Suppressed(policy, es[k])
    ensures Kept(policy, es) == []
  {
    if es != [] {
      NoneKept(policy, es[..|es| - 1]);
    }
  }

  // Plain-text counts are not clamped, so there the difference is exact.
  lemma LinesAfterFilter(policy: Policy, es: seq<Entry>, sampleCap: int)
    ensures |es| - TallyOf(policy, es, sampleCap).suppressed == |Kept(policy, es)|
  {
    EntriesAreConserved(policy, es);
  }

  lemma {:induction false} KeptIsUnsuppressed(policy: Policy, es: seq<Entry>, e: Entry)
    ensures e in Kept(policy, es) <==> e in es && !Suppressed(policy, e)
  {
    if es != [] {
      KeptIsUnsuppressed(policy, es[..|es| - 1], e);
      assert es == es[..|es| - 1] + [es[|es| - 1]];
    }
  }

  // The findings are the first ten thousand kept, and everything kept when the
  // flag is down; samples are the first of the findings.
  lemma FindingsAreTheFirstKept(policy: Policy, es: seq<Entry>, sampleCap: int)
    ensures var t := TallyOf(policy, es, sampleCap); var kept := Kept(policy, es);
            && |t.findings| <= |kept| && |t.findings| <= MAX_FINDINGS
            && (t.truncated <==> |t.findings| < |kept|)
            && (forall k | 0 <= k < |t.findings| :: t.findings[k] == FindingOf(policy, kept[k]))
            && (forall k | 0 <= k < |t.samples| && k < |t.findings| :: t.samples[k] == t.findings[k].sample)
            && |t.samples| == if sampleCap < 0 then 0 else if sampleCap < |kept| then sampleCap else |kept|
  {
    var kept := Kept(policy, es);
    assert forall k | 0 <= k < |First(kept, MAX_FINDINGS)| :: First(kept, MAX_FINDINGS)[k] == kept[k];
    assert forall k | 0 <= k < |First(kept, sampleCap)| :: First(kept, sampleCap)[k] == kept[k];
  }

  // More output never changes what the earlier output contributed.
  lemma {:induction false} MoreOutputOnlyAdds(policy: Policy, es: seq<Entry>, more: seq<Entry>)
    ensures Kept(policy, es) <= Kept(policy, es + more)
    ensures |Dropped(policy, es)| <= |Dropped(policy, es + more)|
    decreases |more|
  {
    if more == [] {
      assert es + more == es;
    } else {
      var less := more[..|more| - 1];
      assert (es + more)[..|es + more| - 1] == es + less;
      MoreOutputOnlyAdds(policy, es, less);
    }
  }

  // The first failing diagnostic of a file.
  ghost predicate FirstFailure(reader: Reader, es: seq<Entry>, file: string, k: nat) {
    && k < |es| && es[k].file == file && reader.failure(es[k].message).Some?
    && forall j | 0 <= j < k :: es[j].file != file || reader.failure(es[j].message).None?
  }

  ghost predicate FirstReason(reader: Reader, es: seq<Entry>, file: string, reason: string) {
    exists k: nat :: FirstFailure(reader, es, file, k) && reason == reader.failure(es[k].message).value
  }

  // Each unparsed file is listed once, under the reason it failed for first,
  // whether or not the diagnostic itself was suppressed.
  lemma {:induction false} FailuresAreFirst(reader: Reader, es: seq<Entry>)
    ensures var f := FailuresOf(reader, es);
            && (forall i, j | 0 <= i < j < |f.files| :: f.files[i] != f.files[j])
            && f.reasons.Keys == (set file | file in f.files)
            && (forall file | file in f.reasons :: FirstReason(reader, es, file, f.reasons[file]))
            && (forall k | 0 <= k < |es| && reader.failure(es[k].message).Some? :: es[k].file in f.files)
  {
    if es != [] {
      var rest, last := es[..|es| - 1], es[|es| - 1];
      var before, f := FailuresOf(reader, rest), FailuresOf(reader, es);
      FailuresAreFirst(reader, rest);
      assert f == NoteFailure(reader, before, last.file, last.message);
      forall file | file in f.reasons ensures FirstReason(reader, es, file, f.reasons[file]) {
        if file in before.reasons {
          FirstReasonStays(reader, rest, last, file, before.reasons[file]);
          assert es == rest + [last];
        } else {
          assert FirstFailure(reader, es, file, |es| - 1);
        }
      }
    }
  }

  lemma FirstReasonStays(reader: Reader, es: seq<Entry>, e: Entry, file: string, reason: string)
    requires FirstReason(reader, es, file, reason)
    ensures FirstReason(reader, es + [e], file, reason)
  {
    var k: nat :| FirstFailure(reader, es, file, k) && reason == reader.failure(es[k].message).value;
    assert FirstFailure(reader, es + [e], file, k);
  }
}
