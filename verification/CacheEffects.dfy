/** What a run leaves in the manifest and in the directory, field by field and
    name by name. */
module CacheEffects {
  import opened Options
  import opened RunCache
  import opened Subsequences

  predicate NamesIt(e: Entry, name: Name) {
    e.sarif == Some(name) || e.html == Some(name) || e.findings == Some(name)
  }

  lemma {:induction false} NamedBySome(entries: seq<Entry>, name: Name)
    ensures name in NamesIn(entries) <==> exists k :: 0 <= k < |entries| && NamesIt(entries[k], name)
  {
    if entries != [] {
      NamedBySome(entries[1..], name);
      assert forall k | 0 < k < |entries| :: entries[k] == entries[1..][k - 1];
      assert NamesIt(entries[0], name) <==> name in NamesOf(entries[0]);
    }
  }

  // -------------------------------------------------------------- the manifest

  // The entry of a run: its second and commit, the SARIF, the page if one was
  // written, the sidecar if it was written and stays, and the rest of what the
  // last run alone keeps.
  predicate Says(e: Entry, r: RunInput, isLast: bool) {
    && e.iso == r.iso && e.commit == r.commit
    && e.sarif == Some(Name(Sarif, r.iso, r.commit))
    && e.html == (if r.html then Some(Name(Html, r.iso, r.commit)) else None)
    && e.findings == (if r.merged && r.sidecar == Written then Some(Name(Findings, r.iso, r.commit)) else None)
    && e.more == (if isLast then r.more else "")
  }

  predicate GoesThrough(r: RunInput) {
    r.sarif == Written && r.dirOk && r.commitOk
  }

  lemma {:induction false} RecordedAre(runs: seq<RunInput>, r: RunInput)
    ensures InOrder(RecordedOf(runs), runs)
    ensures multiset(RecordedOf(runs))[r] == (if GoesThrough(r) then multiset(runs)[r] else 0)
  {
    if runs != [] {
      var rest, last := runs[..|runs| - 1], runs[|runs| - 1];
      assert runs == rest + [last];
      RecordedAre(rest, r);
      InOrderGrows(RecordedOf(rest), rest, last, GoesThrough(last));
      var before := RecordedOf(rest);
      assert RecordedOf(runs) == if GoesThrough(last) then before + [last] else before;
    }
  }

  // After any runs the manifest has the newest run that went through and up to
  // ten before it, each with what it wrote; there is none before the first.
  lemma ManifestTells(trace: seq<State>, runs: seq<RunInput>, k: nat, r: RunInput) returns (through: seq<RunInput>)
    requires Runs(trace, runs) && trace[0].index == Absent && k < |trace|
    ensures InOrder(through, runs[..k])
    ensures multiset(through)[r] == (if GoesThrough(r) then multiset(runs[..k])[r] else 0)
    ensures through == [] ==> trace[k].index == Absent
    ensures through != [] ==> trace[k].index.Present? && Lists(trace[k].index.manifest, through)
  {
    through := RecordedOf(runs[..k]);
    RecordedAre(runs[..k], r);
    IndexLists(trace, runs, k, runs[..k]);
  }

  lemma IndexLists(trace: seq<State>, runs: seq<RunInput>, k: nat, done: seq<RunInput>)
    requires Runs(trace, runs) && trace[0].index == Absent && k < |trace| && done == runs[..k]
    ensures RecordedOf(done) == [] ==> trace[k].index == Absent
    ensures RecordedOf(done) != [] ==> trace[k].index.Present? && Lists(trace[k].index.manifest, RecordedOf(done))
  {
    ManifestIsTheLogsHead(trace, runs, k);
    LogIsReversed(done);
    if RecordedOf(done) != [] {
      LogIsListed(Log(done), RecordedOf(done));
    }
  }

  ghost predicate Lists(m: Manifest, through: seq<RunInput>) {
    && m.lastRun.Some? && through != [] && |m.history| == (if |through| > 11 then 10 else |through| - 1)
    && Says(m.lastRun.value, through[|through| - 1], true)
    && forall i | 0 <= i < |m.history| :: Says(m.history[i], through[|through| - 2 - i], false)
  }

  lemma LogIsListed(log: seq<Entry>, through: seq<RunInput>)
    requires |log| == |through| > 0 && forall i | 0 <= i < |log| :: log[i] == EntryOf(through[|log| - 1 - i])
    ensures ManifestOf(log).Present? && Lists(ManifestOf(log).manifest, through)
  {
    var h := DistilAll(log[1..]);
    assert forall i | 0 <= i < |h| :: h[i] == Distil(log[i + 1]);
  }

  // ------------------------------------------------------------- the directory

  // The run writes this file, and it stays.
  predicate Writes(r: RunInput, name: Name) {
    && r.sarif == Written && name.iso == r.iso && name.commit == r.commit
    && match name.kind
       case Sarif => true
       case Html => r.html
       case Findings => r.dirOk && r.merged && r.sidecar == Written
  }

  // A file it wrote could not be made private, and is removed again.
  predicate TakesBack(r: RunInput, name: Name) {
    && name.iso == r.iso && name.commit == r.commit
    && match name.kind
       case Sarif => r.sarif == NotPrivate
       case Html => false
       case Findings => r.sarif == Written && r.dirOk && r.merged && r.sidecar == NotPrivate
  }

  // The entries a recorded run finds: the last run's, then the history.
  function Before(index: Index): seq<Entry> {
    match index
    case Present(m) => (match m.lastRun case Some(e) => [e] case None => []) + m.history
    case _ => []
  }

  // Only entries that fall behind the first ten name it, and it can be removed.
  ghost predicate FallsOut(s: State, r: RunInput, name: Name) {
    && GoesThrough(r) && name !in r.stuck && !Writes(r, name)
    && NamedBehind(Before(s.index), name) && !NamedAmong(Before(s.index), name)
  }

  ghost predicate NamedBehind(entries: seq<Entry>, name: Name) {
    exists k :: 10 <= k < |entries| && NamesIt(entries[k], name)
  }

  ghost predicate NamedAmong(entries: seq<Entry>, name: Name) {
    exists k :: 0 <= k < |entries| && k < 10 && NamesIt(entries[k], name)
  }

  // After a run a file is there if the run wrote it, or if it was there and was
  // neither taken back nor fell out of the manifest.
  lemma FilesTell(s: State, r: RunInput, name: Name)
    ensures name in RunStep(s, r).files
       <==> Writes(r, name) || (name in s.files && !TakesBack(r, name) && !FallsOut(s, r, name))
  {
    if GoesThrough(r) {
      ReapableIs(s.index, r, name);
    }
  }

  lemma ReapableIs(index: Index, r: RunInput, name: Name)
    requires GoesThrough(r)
    ensures name in Reapable(index, r)
       <==> FallsOut(State(index, {}), r, name)
  {
    CutOfIndex(index, name);
    NamedByNew(index, r);
    EntryNames(r, name);
  }

  lemma EntryNames(r: RunInput, name: Name)
    requires GoesThrough(r)
    ensures name in NamesOf(EntryOf(r)) <==> Writes(r, name)
  {
  }

  lemma CutOfIndex(index: Index, name: Name)
    ensures var h := Migrated(LoadManifest(index));
            && (name in NamesIn(Dropped(h)) <==> NamedBehind(Before(index), name))
            && (name in NamesIn(Capped(h)) <==> NamedAmong(Before(index), name))
  {
    MigratedIs(index);
    CutTells(Migrated(LoadManifest(index)), Before(index), name);
  }

  // Which names the first ten entries have, and which the others.
  lemma CutTells(h: seq<Entry>, before: seq<Entry>, name: Name)
    requires |h| == |before| && forall k | 0 <= k < |h| :: NamesIt(h[k], name) <==> NamesIt(before[k], name)
    ensures name in NamesIn(Dropped(h)) <==> NamedBehind(before, name)
    ensures name in NamesIn(Capped(h)) <==> NamedAmong(before, name)
  {
    NamedBySome(Dropped(h), name);
    NamedBySome(Capped(h), name);
    assert forall k | 0 <= k < |Capped(h)| :: Capped(h)[k] == h[k];
    assert forall k | 0 <= k < |Dropped(h)| :: Dropped(h)[k] == h[k + 10];
    assert forall k | 10 <= k < |h| :: h[k] == Dropped(h)[k - 10];
  }

  lemma MigratedIs(index: Index)
    ensures var h := Migrated(LoadManifest(index));
            |h| == |Before(index)| && forall k | 0 <= k < |h| :: h[k] == Before(index)[k].(more := h[k].more)
  {
  }
}
