/** The findings delta between two runs: only changed files were scanned
    again, what was known elsewhere is carried on. */
module Delta {
  import opened Subsequences

  // `fp` is the finding's identity; a finding without one has "".
  datatype Finding = Finding(fp: string, file: string, more: string)

  datatype Result = Result(added: seq<Finding>, removed: seq<Finding>, carriedForward: seq<Finding>,
      merged: seq<Finding>)

  // ------------------------------------------------------------ specification

  function Filter(s: seq<Finding>, p: Finding -> bool): seq<Finding> {
    if s == [] then [] else Filter(s[..|s| - 1], p) + (if p(s[|s| - 1]) then [s[|s| - 1]] else [])
  }

  // The identities present; the empty one is none.
  function Fps(s: seq<Finding>): set<string> {
    set f | f in s && f.fp != "" :: f.fp
  }

  function NotIn(fps: set<string>): Finding -> bool {
    (f: Finding) => f.fp !in fps
  }

  function In(fps: set<string>): Finding -> bool {
    (f: Finding) => f.fp in fps
  }

  function On(files: set<string>): Finding -> bool {
    (f: Finding) => f.file in files
  }

  function Off(files: set<string>): Finding -> bool {
    (f: Finding) => f.file !in files
  }

  function GoneFromChanged(changed: set<string>, fps: set<string>): Finding -> bool {
    (f: Finding) => f.file in changed && f.fp !in fps
  }

  // Prior findings that only the prior run knows, on files not scanned again.
  function CarriedOnly(changed: set<string>, fps: set<string>): Finding -> bool {
    (f: Finding) => f.file !in changed && f.fp !in fps
  }

  function Carried(current: seq<Finding>, prior: seq<Finding>, changed: set<string>): seq<Finding> {
    Filter(prior, CarriedOnly(changed, Fps(current)))
  }

  function DeltaOf(current: seq<Finding>, prior: seq<Finding>, changed: set<string>): Result {
    Result(Filter(current, NotIn(Fps(prior))),
           Filter(prior, GoneFromChanged(changed, Fps(current))),
           Filter(current, In(Fps(prior))) + Carried(current, prior, changed),
           current + Carried(current, prior, changed))
  }

  // ------------------------------------------------------------------ the code

  method FpSet(a: seq<Finding>) returns (s: set<string>)
    ensures s == Fps(a)
  {
    s := {};
    var k := 0;
    while k < |a|
      invariant 0 <= k <= |a| && s == Fps(a[..k])
    {
      assert a[..k + 1] == a[..k] + [a[k]];
      if a[k].fp != "" {
        s := s + {a[k].fp};
      }
      k := k + 1;
    }
    assert a[..k] == a;
  }

  // One append loop: the findings `p` picks, behind what is there.
  method AppendIf(out: seq<Finding>, from: seq<Finding>, p: Finding -> bool) returns (r: seq<Finding>)
    ensures r == out + Filter(from, p) && (out == [] ==> r == Filter(from, p))
  {
    r := out;
    var k := 0;
    assert from[..0] == [];
    while k < |from|
      invariant 0 <= k <= |from| && r == out + Filter(from[..k], p)
    {
      assert from[..k + 1][..k] == from[..k];
      if p(from[k]) {
        r := r + [from[k]];
      }
      k := k + 1;
    }
    assert from[..k] == from;
  }

  method ComputeDelta(current: seq<Finding>, prior: seq<Finding>, changed: set<string>) returns (d: Result)
    ensures d == DeltaOf(current, prior, changed)
  {
    var onChanged := AppendIf([], prior, On(changed));
    var onUntouched := AppendIf([], prior, Off(changed));
    var currentFps := FpSet(current);
    var priorFps := FpSet(prior);
    var added := AppendIf([], current, NotIn(priorFps));
    var removed := AppendIf([], onChanged, NotIn(currentFps));
    var carried := AppendIf([], current, In(priorFps));
    carried := AppendIf(carried, onUntouched, NotIn(currentFps));
    var merged := current;
    merged := AppendIf(merged, onUntouched, NotIn(currentFps));
    FilterTwice(prior, On(changed), NotIn(currentFps), GoneFromChanged(changed, currentFps));
    FilterTwice(prior, Off(changed), NotIn(currentFps), CarriedOnly(changed, currentFps));
    d := Result(added, removed, carried, merged);
  }

  // The runner's filter over the carried set before it goes to the SARIF: it
  // skips every identity of this run, the empty one too.
  method CarriedForSarif(current: seq<Finding>, d: Result) returns (out: seq<Finding>)
    ensures out == Filter(d.carriedForward, NotIn(AllFps(current)))
  {
    var fps: set<string> := {};
    var k := 0;
    while k < |current|
      invariant 0 <= k <= |current| && fps == AllFps(current[..k])
    {
      assert current[..k + 1] == current[..k] + [current[k]];
      fps := fps + {current[k].fp};
      k := k + 1;
    }
    assert current[..k] == current;
    out := AppendIf([], d.carriedForward, NotIn(fps));
  }

  function AllFps(s: seq<Finding>): set<string> {
    set f | f in s :: f.fp
  }

  function Head(s: seq<Finding>, n: nat): seq<Finding> {
    if |s| > n then s[..n] else s
  }

  // Keeps the head; says whether anything was cut.
  method CapRecorded(merged: seq<Finding>, maxEntries: int) returns (kept: seq<Finding>, cut: bool)
    ensures cut == (0 <= maxEntries < |merged|)
    ensures kept == if maxEntries < 0 then merged else Head(merged, maxEntries)
  {
    kept, cut := merged, false;
    if maxEntries < 0 || |merged| <= maxEntries {
      return;
    }
    while |kept| > maxEntries
      invariant maxEntries <= |kept| <= |merged| && kept == merged[..|kept|]
    {
      kept := kept[..|kept| - 1];
    }
    cut := true;
  }

  // ------------------------------------------------------------------- filters

  lemma {:induction false} FilterTwice(s: seq<Finding>, p: Finding -> bool, q: Finding -> bool, both: Finding -> bool)
    requires forall f :: both(f) == (p(f) && q(f))
    ensures Filter(Filter(s, p), q) == Filter(s, both)
  {
    if s != [] {
      var rest := s[..|s| - 1];
      var last := s[|s| - 1];
      FilterTwice(rest, p, q, both);
      if p(last) {
        assert (Filter(rest, p) + [last])[..|Filter(rest, p)|] == Filter(rest, p);
      } else {
        assert Filter(s, p) == Filter(rest, p);
      }
    }
  }

  lemma {:induction false} FilterConcat(a: seq<Finding>, b: seq<Finding>, p: Finding -> bool)
    ensures Filter(a + b, p) == Filter(a, p) + Filter(b, p)
    decreases |b|
  {
    if b == [] {
      assert a + b == a;
    } else {
      assert (a + b)[..|a + b| - 1] == a + b[..|b| - 1];
      FilterConcat(a, b[..|b| - 1], p);
    }
  }

  lemma {:induction false} FilterMember(s: seq<Finding>, p: Finding -> bool, f: Finding)
    ensures f in Filter(s, p) <==> f in s && p(f)
  {
    if s != [] {
      assert s == s[..|s| - 1] + [s[|s| - 1]];
      FilterMember(s[..|s| - 1], p, f);
    }
  }

  lemma {:induction false} FilterNone(s: seq<Finding>, p: Finding -> bool)
    requires forall f | f in s :: !p(f)
    ensures Filter(s, p) == []
  {
    if s != [] {
      FilterNone(s[..|s| - 1], p);
    }
  }

  lemma {:induction false} FilterAll(s: seq<Finding>, p: Finding -> bool)
    requires forall f | f in s :: p(f)
    ensures Filter(s, p) == s
  {
    if s != [] {
      FilterAll(s[..|s| - 1], p);
    }
  }

  // ------------------------------------------------------------- what it means

  ghost predicate Identified(s: seq<Finding>) {
    forall f | f in s :: f.fp != ""
  }

  ghost predicate FpDecidesFile(s: seq<Finding>) {
    forall f, g | f in s && g in s && f.fp == g.fp :: f.file == g.file
  }

  function OnUntouched(prior: seq<Finding>, changed: set<string>): seq<Finding> {
    Filter(prior, Off(changed))
  }

  lemma InFps(s: seq<Finding>, f: Finding)
    requires f in s && f.fp != ""
    ensures f.fp in Fps(s)
  {
  }

  // ---- the four parts, told finding by finding

  // Some finding of the list has this finding's identity; the empty one is none.
  ghost predicate Known(s: seq<Finding>, f: Finding) {
    f.fp != "" && exists k :: 0 <= k < |s| && s[k].fp == f.fp
  }

  // A finding is in the part as often as in the list, if `p` takes it.
  lemma {:induction false} FilterTimes(s: seq<Finding>, p: Finding -> bool, f: Finding)
    ensures multiset(Filter(s, p))[f] == if p(f) then multiset(s)[f] else 0
    ensures InOrder(Filter(s, p), s)
  {
    if s != [] {
      var rest, last := s[..|s| - 1], s[|s| - 1];
      assert s == rest + [last];
      FilterTimes(rest, p, f);
      if p(last) {
        assert Filter(s, p)[..|Filter(rest, p)|] == Filter(rest, p);
      } else {
        assert Filter(s, p) == Filter(rest, p);
      }
    }
  }

  lemma KnownIsFp(s: seq<Finding>, f: Finding)
    ensures Known(s, f) <==> f.fp in Fps(s)
  {
    if f.fp in Fps(s) {
      var g :| g in s && g.fp != "" && g.fp == f.fp;
    }
  }

  // Each part holds every finding as often as its list does, or not at all: new
  // ones are this run's that the prior run did not know, removed ones the prior
  // run's on a changed file that this run does not know, carried ones this
  // run's that were known and the prior run's on other files that are not.
  lemma DeltaTells(current: seq<Finding>, prior: seq<Finding>, changed: set<string>, f: Finding)
    returns (known: seq<Finding>, rest: seq<Finding>)
    ensures var d := DeltaOf(current, prior, changed);
            && d.carriedForward == known + rest && d.merged == current + rest
            && InOrder(d.added, current) && InOrder(known, current) && InOrder(d.removed, prior) && InOrder(rest, prior)
            && multiset(d.added)[f] == (if Known(prior, f) then 0 else multiset(current)[f])
            && multiset(known)[f] == (if Known(prior, f) then multiset(current)[f] else 0)
            && multiset(d.removed)[f] == (if f.file in changed && !Known(current, f) then multiset(prior)[f] else 0)
            && multiset(rest)[f] == (if f.file !in changed && !Known(current, f) then multiset(prior)[f] else 0)
  {
    known, rest := Filter(current, In(Fps(prior))), Carried(current, prior, changed);
    KnownIsFp(current, f);
    KnownIsFp(prior, f);
    FilterTimes(current, In(Fps(prior)), f);
    FilterTimes(current, NotIn(Fps(prior)), f);
    FilterTimes(prior, CarriedOnly(changed, Fps(current)), f);
    FilterTimes(prior, GoneFromChanged(changed, Fps(current)), f);
  }

  // The merged identities: this run's, and the prior run's on untouched files.
  lemma MergedIsTheUnion(current: seq<Finding>, prior: seq<Finding>, changed: set<string>)
    ensures Fps(DeltaOf(current, prior, changed).merged) == Fps(current) + Fps(OnUntouched(prior, changed))
  {
    var merged := DeltaOf(current, prior, changed).merged;
    var untouched := OnUntouched(prior, changed);
    forall f: Finding
      ensures f in merged <==> f in current || (f in prior && f.file !in changed && f.fp !in Fps(current))
      ensures f in untouched <==> f in prior && f.file !in changed
    {
      FilterMember(prior, CarriedOnly(changed, Fps(current)), f);
      FilterMember(prior, Off(changed), f);
    }
    forall fp | fp in Fps(current) + Fps(untouched) ensures fp in Fps(merged) {
      if fp in Fps(current) {
        var f :| f in current && f.fp != "" && f.fp == fp;
        InFps(merged, f);
      } else {
        var f :| f in untouched && f.fp != "" && f.fp == fp;
        InFps(merged, f);
      }
    }
    forall fp | fp in Fps(merged) ensures fp in Fps(current) + Fps(untouched) {
      var f :| f in merged && f.fp != "" && f.fp == fp;
      if f in current { InFps(current, f); } else { InFps(untouched, f); }
    }
  }

  // Nothing of the prior run is lost or kept twice: every prior identity is
  // among the removed or the merged ones, and not in both.
  lemma PriorIsRemovedOrMerged(current: seq<Finding>, prior: seq<Finding>, changed: set<string>, f: Finding)
    requires f in prior && Identified(current) && Identified(prior) && FpDecidesFile(current + prior)
    ensures var d := DeltaOf(current, prior, changed); f.fp in Fps(d.removed) <==> f.fp !in Fps(d.merged)
  {
    var d := DeltaOf(current, prior, changed);
    MergedIsTheUnion(current, prior, changed);
    var untouched := OnUntouched(prior, changed);
    FilterMember(prior, GoneFromChanged(changed, Fps(current)), f);
    FilterMember(prior, Off(changed), f);
    if f.fp in Fps(d.removed) {
      var g :| g in d.removed && g.fp != "" && g.fp == f.fp;
      FilterMember(prior, GoneFromChanged(changed, Fps(current)), g);
      assert g in current + prior;
      forall h | h in untouched ensures h in current + prior && h.file !in changed {
        FilterMember(prior, Off(changed), h);
      }
    } else if f.fp !in Fps(d.merged) {
      InFps(prior, f);
      if f in untouched { InFps(untouched, f); }
      if f in d.removed { InFps(d.removed, f); }
    }
  }

  // Running again with the same inputs on what was recorded changes nothing.
  lemma MergingIsIdempotent(current: seq<Finding>, prior: seq<Finding>, changed: set<string>)
    requires Identified(current)
    ensures var merged := DeltaOf(current, prior, changed).merged;
            DeltaOf(current, merged, changed).merged == merged
  {
    var p := CarriedOnly(changed, Fps(current));
    var carried := Carried(current, prior, changed);
    FilterConcat(current, carried, p);
    FilterNone(current, p);
    forall f | f in carried ensures p(f) {
      FilterMember(prior, p, f);
    }
    FilterAll(carried, p);
    var merged := current + carried;
    assert Filter(merged, p) == [] + carried == carried;
    assert DeltaOf(current, merged, changed).merged == current + Filter(merged, p);
  }

  function SarifRuns(current: seq<Finding>, d: Result): seq<Finding> {
    current + Filter(d.carriedForward, NotIn(AllFps(current)))
  }

  // The SARIF's runs, per tool and carried, together are the recorded set,
  // exactly when no nameless finding is on both sides.
  lemma SarifIsMerged(current: seq<Finding>, prior: seq<Finding>, changed: set<string>)
    ensures SarifRuns(current, DeltaOf(current, prior, changed)) == DeltaOf(current, prior, changed).merged
       <==> !("" in AllFps(current) && "" in AllFps(OnUntouched(prior, changed)))
  {
    var d := DeltaOf(current, prior, changed);
    var both := Filter(current, In(Fps(prior)));
    var carried := Carried(current, prior, changed);
    var q := NotIn(AllFps(current));
    FilterConcat(both, carried, q);
    forall f | f in both ensures !q(f) {
      FilterMember(current, In(Fps(prior)), f);
    }
    FilterNone(both, q);
    assert Filter(d.carriedForward, q) == Filter(carried, q);
    forall f | f in carried ensures f.fp in AllFps(current) ==> f.fp == "" {
      FilterMember(prior, CarriedOnly(changed, Fps(current)), f);
      assert f.fp !in Fps(current);
      forall g | g in current && g.fp == f.fp ensures g.fp == "" {
        if g.fp != "" { InFps(current, g); assert false; }
      }
    }
    if "" in AllFps(current) && "" in AllFps(OnUntouched(prior, changed)) {
      var f :| f in OnUntouched(prior, changed) && f.fp == "";
      FilterMember(prior, Off(changed), f);
      FilterMember(prior, CarriedOnly(changed, Fps(current)), f);
      FilterMember(carried, q, f);
      assert Filter(carried, q) != carried;
      assert (current + Filter(carried, q))[|current|..] == Filter(carried, q);
      assert (current + carried)[|current|..] == carried;
    } else {
      forall f | f in carried ensures q(f) {
        FilterMember(prior, CarriedOnly(changed, Fps(current)), f);
        FilterMember(prior, Off(changed), f);
      }
      FilterAll(carried, q);
    }
  }

  // -------------------------------------------------------------- chains of runs

  const MAX_RECORDED: nat := 10000

  // What a run leaves for the next: the findings, and whether any were cut.
  datatype Recorded = Recorded(findings: seq<Finding>, truncated: bool)

  // `narrowed`: only changed files were scanned, otherwise every file was.
  // `readable`: the prior findings could be read. `cutShort`: a tool's own
  // findings were truncated.
  datatype Run = Run(current: seq<Finding>, changed: set<string>, narrowed: bool, readable: bool, cutShort: bool)

  predicate Scans(run: Run, file: string) {
    !run.narrowed || file in run.changed
  }

  predicate Merges(run: Run) {
    run.narrowed && run.readable
  }

  function Merged(prior: Recorded, run: Run): seq<Finding> {
    if Merges(run) then DeltaOf(run.current, prior.findings, run.changed).merged else run.current
  }

  function Next(prior: Recorded, run: Run): Recorded {
    var merged := Merged(prior, run);
    Recorded(Head(merged, MAX_RECORDED),
             run.cutShort || (Merges(run) && prior.truncated) || |merged| > MAX_RECORDED)
  }

  // What is recorded after a chain of runs.
  function AfterChain(prior: Recorded, runs: seq<Run>): Recorded
    decreases |runs|
  {
    if runs == [] then prior else AfterChain(Next(prior, runs[0]), runs[1..])
  }

  // Carried findings come last, so the cap sheds them first. Where an identity
  // stands decides whether it stays.
  function Place(s: seq<Finding>, fp: string): (k: nat)
    ensures k <= |s| && (k < |s| ==> s[k].fp == fp) && forall j | 0 <= j < k :: s[j].fp != fp
  {
    if s == [] || s[0].fp == fp then 0 else 1 + Place(s[1..], fp)
  }

  predicate Has(s: seq<Finding>, fp: string) {
    Place(s, fp) < |s|
  }

  ghost predicate OfFile(s: seq<Finding>, fp: string, file: string) {
    forall f | f in s && f.fp == fp :: f.file == file
  }

  lemma HasMember(s: seq<Finding>, f: Finding)
    requires f in s
    ensures Has(s, f.fp)
  {
  }

  lemma FirstHas(s: seq<Finding>, n: nat, fp: string)
    ensures Has(Head(s, n), fp) <==> Has(s, fp) && Place(s, fp) < n
  {
    if |s| > n && Place(s, fp) < n {
      assert s[..n][Place(s, fp)] == s[Place(s, fp)];
    }
  }

  lemma PlaceIs(s: seq<Finding>, fp: string, k: nat)
    requires k <= |s| && (k < |s| ==> s[k].fp == fp) && forall j | 0 <= j < k :: s[j].fp != fp
    ensures Place(s, fp) == k
  {
  }

  // The place of an identity among the merged findings: where this run has it,
  // or behind all of this run's and the findings carried before it.
  lemma PlaceInMerged(current: seq<Finding>, prior: seq<Finding>, changed: set<string>, fp: string)
    ensures Place(DeltaOf(current, prior, changed).merged, fp)
         == if Has(current, fp) then Place(current, fp) else |current| + Place(Carried(current, prior, changed), fp)
  {
    var carried := Carried(current, prior, changed);
    if Has(current, fp) {
      PlaceIs(current + carried, fp, Place(current, fp));
    } else {
      PlaceIs(current + carried, fp, |current| + Place(carried, fp));
    }
  }

  // On a file that is not scanned, an identity is still among the merged ones,
  // unless the prior findings could not be read.
  lemma UntouchedIsMerged(prior: Recorded, run: Run, fp: string, file: string)
    requires fp != "" && Has(prior.findings, fp) && OfFile(prior.findings, fp, file) && !Scans(run, file)
    ensures Has(Merged(prior, run), fp) <==> run.readable || Has(run.current, fp)
  {
    var f := prior.findings[Place(prior.findings, fp)];
    var merged := Merged(prior, run);
    FilterMember(prior.findings, CarriedOnly(run.changed, Fps(run.current)), f);
    if run.readable {
      if fp in Fps(run.current) {
        var g :| g in run.current && g.fp != "" && g.fp == fp;
        HasMember(merged, g);
      } else {
        HasMember(merged, f);
      }
    }
  }

  lemma MergedKeepsFile(prior: Recorded, run: Run, fp: string, file: string)
    requires OfFile(prior.findings, fp, file) && OfFile(run.current, fp, file)
    ensures OfFile(Merged(prior, run), fp, file) && OfFile(Next(prior, run).findings, fp, file)
  {
    var merged := Merged(prior, run);
    forall f | f in merged && f.fp == fp ensures f.file == file {
      FilterMember(prior.findings, CarriedOnly(run.changed, Fps(run.current)), f);
    }
    assert forall f | f in Head(merged, MAX_RECORDED) :: f in merged;
  }

  // The runs leave the file alone, and agree that the identity is on it.
  ghost predicate LeaveAlone(runs: seq<Run>, fp: string, file: string) {
    forall k | 0 <= k < |runs| :: !Scans(runs[k], file) && OfFile(runs[k].current, fp, file)
  }

  // The identity is recorded after every run of the chain.
  ghost predicate Stays(prior: Recorded, runs: seq<Run>, fp: string)
    decreases |runs|
  {
    Has(prior.findings, fp) && (runs == [] || Stays(Next(prior, runs[0]), runs[1..], fp))
  }

  // At every run its place among the merged findings is below the cap, and a
  // run that could not read the prior findings found it anew.
  ghost predicate BelowCap(prior: Recorded, runs: seq<Run>, fp: string)
    decreases |runs|
  {
    runs == []
    || (Place(Merged(prior, runs[0]), fp) < MAX_RECORDED && (runs[0].readable || Has(runs[0].current, fp))
        && BelowCap(Next(prior, runs[0]), runs[1..], fp))
  }

  // Over any chain of runs that leave its file alone, a finding stays recorded
  // exactly while its place is below the cap and the prior record is read.
  lemma {:induction false} StaysBelowTheCap(prior: Recorded, runs: seq<Run>, fp: string, file: string)
    requires fp != "" && Has(prior.findings, fp) && OfFile(prior.findings, fp, file) && LeaveAlone(runs, fp, file)
    ensures Stays(prior, runs, fp) <==> BelowCap(prior, runs, fp)
    decreases |runs|
  {
    if runs != [] {
      var next := Next(prior, runs[0]);
      UntouchedIsMerged(prior, runs[0], fp, file);
      MergedKeepsFile(prior, runs[0], fp, file);
      FirstHas(Merged(prior, runs[0]), MAX_RECORDED, fp);
      if Has(next.findings, fp) {
        StaysBelowTheCap(next, runs[1..], fp, file);
      }
    }
  }

  // A finding shed by the cap is never shed silently: the record says that it
  // was cut. Shed silently is what a run finds no prior record for.
  lemma {:induction false} SheddingIsFlagged(prior: Recorded, runs: seq<Run>, fp: string, file: string)
    requires fp != "" && OfFile(prior.findings, fp, file) && LeaveAlone(runs, fp, file)
    requires Has(prior.findings, fp) || prior.truncated
    ensures Has(AfterChain(prior, runs).findings, fp) || AfterChain(prior, runs).truncated
         || exists k :: 0 <= k < |runs| && !runs[k].readable
    decreases |runs|
  {
    if runs != [] {
      assert !Scans(runs[0], file);
      if !runs[0].readable {
        return;
      }
      if Has(prior.findings, fp) {
        UntouchedIsMerged(prior, runs[0], fp, file);
      }
      MergedKeepsFile(prior, runs[0], fp, file);
      var next, rest := Next(prior, runs[0]), runs[1..];
      SheddingIsFlagged(next, rest, fp, file);
      if k :| 0 <= k < |rest| && !rest[k].readable {
        assert !runs[k + 1].readable;
      }
    }
  }

  // A run's own findings were cut short, or more were merged than 10,000.
  predicate Cut(prior: Recorded, run: Run) {
    run.cutShort || |Merged(prior, run)| > 10_000
  }

  // The flag is up after a chain exactly when something was cut, and every run
  // since merged the record before it.
  lemma {:induction false} FlagTells(prior: Recorded, runs: seq<Run>)
    ensures AfterChain(prior, runs).truncated
       <==> (prior.truncated && forall j | 0 <= j < |runs| :: Merges(runs[j]))
            || exists k :: 0 <= k < |runs| && CutSince(prior, runs, k)
    decreases |runs|
  {
    if runs != [] {
      var next, rest := Next(prior, runs[0]), runs[1..];
      FlagTells(next, rest);
      CutFirst(prior, runs);
      MergesFrom(runs);
      forall k | 0 <= k < |rest| ensures CutSince(next, rest, k) <==> CutSince(prior, runs, k + 1) {
        CutLater(prior, runs, k);
      }
      if k :| 0 <= k < |runs| && CutSince(prior, runs, k) && k > 0 {
        assert CutSince(next, rest, k - 1);
      }
    }
  }

  lemma MergesFrom(runs: seq<Run>)
    requires runs != []
    ensures (forall j | 0 <= j < |runs| :: Merges(runs[j]))
       <==> Merges(runs[0]) && forall j | 0 <= j < |runs[1..]| :: Merges(runs[1..][j])
  {
    assert forall j | 0 < j < |runs| :: runs[j] == runs[1..][j - 1];
  }

  lemma CutFirst(prior: Recorded, runs: seq<Run>)
    requires runs != []
    ensures CutSince(prior, runs, 0)
       <==> Cut(prior, runs[0]) && forall j | 0 <= j < |runs[1..]| :: Merges(runs[1..][j])
  {
    assert forall j | 0 < j < |runs| :: runs[j] == runs[1..][j - 1];
  }

  lemma CutLater(prior: Recorded, runs: seq<Run>, k: nat)
    requires k + 1 < |runs|
    ensures CutSince(Next(prior, runs[0]), runs[1..], k) <==> CutSince(prior, runs, k + 1)
  {
    var rest := runs[1..];
    assert runs[..k + 1][1..] == rest[..k] && runs[..k + 1][0] == runs[0];
    assert forall j | 0 < j < |runs| :: runs[j] == rest[j - 1];
  }

  ghost predicate CutSince(prior: Recorded, runs: seq<Run>, k: nat)
    requires k < |runs|
  {
    Cut(AfterChain(prior, runs[..k]), runs[k]) && forall j | k < j < |runs| :: Merges(runs[j])
  }

  // With no prior record to read, all that this run did not find is shed, and
  // no flag goes up.
  lemma UnreadableShedsSilently(prior: Recorded, run: Run, fp: string)
    requires run.narrowed && !run.readable && !run.cutShort && |run.current| <= MAX_RECORDED && !Has(run.current, fp)
    ensures !Has(Next(prior, run).findings, fp) && !Next(prior, run).truncated
  {
    assert Merged(prior, run) == run.current;
  }

  // A full record of other findings on files left alone: one new finding in a
  // changed file, and the last of them is shed.
  lemma FullRecordSheds(prior: Recorded, run: Run, f: Finding)
    requires |prior.findings| == MAX_RECORDED && Distinct(prior.findings) && Identified(prior.findings)
    requires Merges(run) && run.current == [f] && f.fp !in Fps(prior.findings)
    requires forall g | g in prior.findings :: g.file !in run.changed
    ensures var last := prior.findings[MAX_RECORDED - 1];
            !Has(Next(prior, run).findings, last.fp) && Next(prior, run).truncated
  {
    var p := CarriedOnly(run.changed, Fps([f]));
    forall g | g in prior.findings ensures p(g) {
      InFps(prior.findings, g);
    }
    FilterAll(prior.findings, p);
    var last := prior.findings[MAX_RECORDED - 1];
    InFps(prior.findings, last);
    assert Merged(prior, run) == [f] + prior.findings;
    PlaceIs([f] + prior.findings, last.fp, MAX_RECORDED);
    FirstHas([f] + prior.findings, MAX_RECORDED, last.fp);
  }

  // Such a record: ten thousand findings in one file, and one in another.
  lemma ConcreteShed() returns (prior: Recorded, run: Run)
    ensures |prior.findings| == MAX_RECORDED && !prior.truncated
            && run == Run([Finding("", "b.cpp", "")], {"b.cpp"}, true, true, false)
    ensures forall g | g in prior.findings :: g.file == "a.cpp" && g.fp != ""
    ensures Has(prior.findings, Repeated(MAX_RECORDED)) && !Has(Next(prior, run).findings, Repeated(MAX_RECORDED))
  {
    prior := Recorded(seq(MAX_RECORDED, k requires 0 <= k < MAX_RECORDED => Finding(Repeated(k + 1), "a.cpp", "")),
        false);
    run := Run([Finding("", "b.cpp", "")], {"b.cpp"}, true, true, false);
    assert Distinct(prior.findings);
    FullRecordSheds(prior, run, Finding("", "b.cpp", ""));
    HasMember(prior.findings, prior.findings[MAX_RECORDED - 1]);
  }

  function Repeated(n: nat): (s: string)
    ensures |s| == n
  {
    seq(n, _ => 'x')
  }

  // Running again with the same inputs on what was recorded changes nothing,
  // cut or not.
  lemma RecordingIsIdempotent(prior: Recorded, run: Run)
    requires Identified(run.current)
    ensures Next(Next(prior, run), run).findings == Next(prior, run).findings
  {
    if Merges(run) {
      var p := CarriedOnly(run.changed, Fps(run.current));
      var current, carried := run.current, Carried(run.current, prior.findings, run.changed);
      forall f | f in carried ensures p(f) {
        FilterMember(prior.findings, p, f);
      }
      HeadKeepsCarried(current, carried, p, MAX_RECORDED);
    }
  }

  // Merged again with the same current findings, a capped list is the same.
  lemma HeadKeepsCarried(current: seq<Finding>, carried: seq<Finding>, p: Finding -> bool, n: nat)
    requires forall f | f in carried :: p(f)
    requires forall f | f in current :: !p(f)
    ensures Head(current + Filter(Head(current + carried, n), p), n) == Head(current + carried, n)
  {
    if |current| >= n {
      var kept := current[..n];
      assert Head(current + carried, n) == kept;
      FilterNone(kept, p);
      assert current + [] == current;
    } else {
      var some := Head(carried, n - |current|);
      assert Head(current + carried, n) == current + some;
      FilterConcat(current, some, p);
      FilterNone(current, p);
      FilterAll(some, p);
      assert [] + some == some;
    }
  }

  // Nothing is invented: what is recorded was reported by some run, and no
  // later run scanned its file again without reporting it.
  lemma {:induction false} NothingIsInvented(prior: Recorded, runs: seq<Run>, f: Finding)
    requires f in AfterChain(prior, runs).findings
    ensures (f in prior.findings && forall k | 0 <= k < |runs| :: !Scans(runs[k], f.file))
         || exists j :: 0 <= j < |runs| && f in runs[j].current && forall k | j < k < |runs| :: !Scans(runs[k], f.file)
    decreases |runs|
  {
    if runs != [] {
      var run, rest := runs[0], runs[1..];
      var next := Next(prior, run);
      NothingIsInvented(next, rest, f);
      if f in next.findings && forall k | 0 <= k < |rest| :: !Scans(rest[k], f.file) {
        assert f in Merged(prior, run);
        FilterMember(prior.findings, CarriedOnly(run.changed, Fps(run.current)), f);
        assert forall k | 1 <= k < |runs| :: runs[k] == rest[k - 1];
        if f in run.current {
          assert f in runs[0].current;
        }
      } else {
        var j :| 0 <= j < |rest| && f in rest[j].current && forall k | j < k < |rest| :: !Scans(rest[k], f.file);
        assert f in runs[j + 1].current;
        assert forall k | j + 1 < k < |runs| :: runs[k] == rest[k - 1];
      }
    }
  }

  ghost predicate Distinct(s: seq<Finding>) {
    forall i, j | 0 <= i < j < |s| :: s[i].fp != s[j].fp
  }

  lemma {:induction false} FilterKeepsDistinct(s: seq<Finding>, p: Finding -> bool)
    requires Distinct(s)
    ensures Distinct(Filter(s, p))
  {
    if s != [] {
      var rest := s[..|s| - 1];
      var last := s[|s| - 1];
      FilterKeepsDistinct(rest, p);
      forall k | 0 <= k < |Filter(rest, p)| ensures Filter(rest, p)[k].fp != last.fp {
        FilterMember(rest, p, Filter(rest, p)[k]);
      }
    }
  }

  lemma NextKeepsDistinct(prior: Recorded, run: Run)
    requires Distinct(prior.findings) && Distinct(run.current) && Identified(run.current)
    ensures Distinct(Next(prior, run).findings)
  {
    var p := CarriedOnly(run.changed, Fps(run.current));
    var carried := Carried(run.current, prior.findings, run.changed);
    FilterKeepsDistinct(prior.findings, p);
    forall i, j | 0 <= i < |run.current| && 0 <= j < |carried| ensures run.current[i].fp != carried[j].fp {
      FilterMember(prior.findings, p, carried[j]);
      InFps(run.current, run.current[i]);
    }
    assert Distinct(run.current + carried);
  }

  // However long the chain, no identity is recorded twice.
  lemma {:induction false} ChainKeepsDistinct(prior: Recorded, runs: seq<Run>)
    requires Distinct(prior.findings)
    requires forall k | 0 <= k < |runs| :: Distinct(runs[k].current) && Identified(runs[k].current)
    ensures Distinct(AfterChain(prior, runs).findings)
    decreases |runs|
  {
    if runs != [] {
      NextKeepsDistinct(prior, runs[0]);
      ChainKeepsDistinct(Next(prior, runs[0]), runs[1..]);
    }
  }
}
